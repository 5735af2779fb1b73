/**
 * The TCP and HTTP operations of the driver (`sim800c/tcpip.py`): a TCP
 * connection that carries one message, and the HTTP(S) GET and POST
 * requests the module makes itself.  Each HTTP request is a fixed set-up
 * sequence, the request proper, and a tear-down that runs on every exit
 * path and whose own failure replaces whatever the request produced with
 * `GPRSHTTPError`.
 */
module TcpIpFlows {
  import opened Errors
  import opened PyText
  import opened Catalog
  import opened Classify
  import opened Transport
  import opened Session
  import opened Controller

  // -------------------------------------------------------- settings (ms)

  /** The default pause after `AT+CIPSTART`. */
  const TCP_CONNECT_PAUSE: nat := 2000
  /** The default HTTP request timeout of the status poll (sixty seconds). */
  const HTTP_REQUEST_TIMEOUT: nat := 60000
  /** The default upload window written into `AT+HTTPDATA`. */
  const HTTP_POST_UPLOAD_TIMEOUT: nat := 10000
  /** The pause after the POST payload and after `AT+HTTPACTION=1`. */
  const HTTP_POST_PAUSE: nat := 10000

  // ------------------------------------------------- catalog text prefixes

  /** Catalog texts that the operations complete with an argument. */
  const TCP_CONNECT_PREFIX: string := "AT+CIPSTART=\"TCP\","
  const TCP_SEND_PREFIX: string := "AT+CIPSEND="
  const HTTP_URL_PREFIX: string := "AT+HTTPPARA=\"URL\","
  const HTTP_DATA_PREFIX: string := "AT+HTTPDATA="

  /** The TCP prefixes are what the catalog resolves their names to. */
  lemma TcpPrefixes()
    ensures Resolve("connect_tcp_client") == TCP_CONNECT_PREFIX
    ensures Resolve("tcp_send_string") == TCP_SEND_PREFIX
  {
    assert "connect_tcp_client" in AT_COMMANDS && "tcp_send_string" in AT_COMMANDS;
  }

  /** The HTTP prefixes are what the catalog resolves their names to. */
  lemma HttpPrefixes()
    ensures Resolve("http_set_param_url") == HTTP_URL_PREFIX
    ensures Resolve("http_post_data") == HTTP_DATA_PREFIX
  {
    assert "http_set_param_url" in AT_COMMANDS && "http_post_data" in AT_COMMANDS;
  }

  // ------------------------------------------------------------------ TCP

  /** `AT+CIPSTART="TCP","<address>",<port>`: the reply must show `CONNECT OK`, else `GPRSTCPError`. */
  function ConnectTcpStep(address: string, port: int, pause: nat): Step {
    Step(TCP_CONNECT_PREFIX + "\"" + address + "\"," + IntToDecimal(port), pause, Checked(TcpConnectOk, TCPError))
  }

  /** `disconnect_tcp` sends the name `close_tcp`, which is not in the catalog, and then `AT+CIPSHUT`; neither reply is judged. */
  const DISCONNECT_PLAN: seq<Step> := [Step("close_tcp", DEFAULT_PAUSE, Unchecked), Step("close_pdp", DEFAULT_PAUSE, Unchecked)]

  /** `AT+CIPSEND=<length>` and then the message itself; neither reply is judged. */
  function PayloadPlan(message: string): seq<Step> {
    [Step(TCP_SEND_PREFIX + IntToDecimal(|message|), DEFAULT_PAUSE, Unchecked), Step(message, DEFAULT_PAUSE, Unchecked)]
  }

  /** What `send_tcp_message` sends once `connected_ok` returned: connect, length, message, disconnect. */
  function TcpSendPlan(address: string, port: int, message: string): seq<Step> {
    [ConnectTcpStep(address, port, TCP_CONNECT_PAUSE)] + PayloadPlan(message) + DISCONNECT_PLAN
  }

  /**
   * `send_tcp_message`, cut at its parts: `connected_ok` (`t1`, ending
   * with `a`) and, only when it returned normally, the rest (`u`).
   */
  ghost predicate TcpSendParts(t1: seq<Exchange>, u: seq<Exchange>, start: int, address: string, port: int, message: string,
                               a: Outcome, r: Outcome) {
    && ConnectedOkRun(t1, start, a)
    && if a != Pass then u == [] && r == a else PlanRun(TcpSendPlan(address, port, message), u, r)
  }

  /** `t` is what `send_tcp_message` sends when started at `start`, and `r` how it ends. */
  ghost predicate TcpSendRun(t: seq<Exchange>, start: int, address: string, port: int, message: string, r: Outcome) {
    exists t1, u, a :: t == t1 + u && TcpSendParts(t1, u, start, address, port, message, a, r)
  }

  /** `t` is such a run whose `connected_ok` part is `c`. */
  ghost predicate TcpSendAfter(t: seq<Exchange>, c: seq<Exchange>, start: int, address: string, port: int, message: string, r: Outcome) {
    exists u, a :: t == c + u && TcpSendParts(c, u, start, address, port, message, a, r)
  }

  lemma TcpSendIntro(t1: seq<Exchange>, u: seq<Exchange>, start: int, address: string, port: int, message: string,
                     a: Outcome, r: Outcome)
    requires TcpSendParts(t1, u, start, address, port, message, a, r)
    ensures TcpSendRun(t1 + u, start, address, port, message, r)
    ensures TcpSendAfter(t1 + u, t1, start, address, port, message, r)
  {
  }

  /**
   * Once `connected_ok` has returned, `AT+CIPSTART` comes first; the
   * length and the message are written only after the reply showed
   * `CONNECT OK`; a decoded reply without it raises `GPRSTCPError` and
   * nothing more is sent; the send completes exactly when all five calls
   * were made and the last returned.
   */
  lemma TcpSendSteps(u: seq<Exchange>, address: string, port: int, message: string, r: Outcome)
    requires PlanRun(TcpSendPlan(address, port, message), u, r)
    ensures 1 <= |u| <= 5 && u[0].cmd == ConnectTcpStep(address, port, TCP_CONNECT_PAUSE).cmd
    ensures |u| >= 2 <==> u[0].reply.Ok? && Accepts(TcpConnectOk, u[0].reply.value)
    ensures u[0].reply.Ok? && !Accepts(TcpConnectOk, u[0].reply.value) ==> r == Fail(TCPError)
    ensures r == Pass <==> |u| == 5 && u[4].reply.Ok?
    ensures |u| == 5 ==> u[1].cmd == TCP_SEND_PREFIX + IntToDecimal(|message|) && u[2].cmd == message
    ensures |u| == 5 ==> u[3].cmd == "close_tcp" && u[4].cmd == "close_pdp"
  {
    var plan := TcpSendPlan(address, port, message);
    assert plan == [ConnectTcpStep(address, port, TCP_CONNECT_PAUSE), PayloadPlan(message)[0], PayloadPlan(message)[1],
                    DISCONNECT_PLAN[0], DISCONNECT_PLAN[1]];
    RanSpec(plan, u);
  }

  /** A completed `send_tcp_message` ends with `connected_ok` passed and the five calls of its plan, in order. */
  lemma TcpSendOrder(t: seq<Exchange>, start: int, address: string, port: int, message: string)
    requires TcpSendRun(t, start, address, port, message, Pass)
    ensures |t| >= 5 && ConnectedOkRun(t[..|t| - 5], start, Pass)
    ensures t[|t| - 5].cmd == ConnectTcpStep(address, port, TCP_CONNECT_PAUSE).cmd
    ensures t[|t| - 5].reply.Ok? && Accepts(TcpConnectOk, t[|t| - 5].reply.value)
    ensures t[|t| - 4].cmd == TCP_SEND_PREFIX + IntToDecimal(|message|) && t[|t| - 3].cmd == message
    ensures t[|t| - 2].cmd == "close_tcp" && t[|t| - 1].cmd == "close_pdp"
  {
    var t1, u, a :| t == t1 + u && TcpSendParts(t1, u, start, address, port, message, a, Pass);
    TcpSendSteps(u, address, port, message, Pass);
    assert t[..|t| - 5] == t1;
    assert t[|t| - 5..] == u;
  }

  // ----------------------------------------------------------- HTTP set-up

  /** The five commands both `http_init` and `https_init` open with; their replies are only logged. */
  const BEARER_TYPE: Step := Step("http_configure_conn_bearer", DEFAULT_PAUSE, Unchecked)
  const BEARER_APN: Step := Step("http_configure_conn_bearer_apn", DEFAULT_PAUSE, Unchecked)
  const CONTEXT_OPEN: Step := Step("http_open_gprs_context", DEFAULT_PAUSE, Unchecked)
  const CONTEXT_QUERY: Step := Step("http_query_gprs_context", DEFAULT_PAUSE, Unchecked)
  const HTTP_START: Step := Step("http_init", DEFAULT_PAUSE, Unchecked)

  /** `AT+HTTPPARA="CID",1` must classify OK, else `GPRSHTTPError`. */
  const CID_STEP: Step := Step("http_set_param_cid", DEFAULT_PAUSE, Checked(AtOk, HTTPError))

  /** `AT+HTTPPARA="URL","<url>"` must classify OK, else `GPRSHTTPError`. */
  function UrlStep(url: string): Step {
    Step(HTTP_URL_PREFIX + "\"" + url + "\"", DEFAULT_PAUSE, Checked(AtOk, HTTPError))
  }

  /** `AT+HTTPSSL=1` must classify OK, else `GPRSHTTPError`. */
  const HTTPS_ENABLE: Step := Step("https_enable", DEFAULT_PAUSE, Checked(AtOk, HTTPError))

  /** The bearer and context set-up both `http_init` and `https_init` open with. */
  const BEARER_PLAN: seq<Step> := [BEARER_TYPE, BEARER_APN, CONTEXT_OPEN, CONTEXT_QUERY, HTTP_START]

  /** What `http_init` sends after the set-up: SSL and redirects off (not judged), then the CID and the URL. */
  function HttpParams(url: string): seq<Step> {
    [Step("https_disable", DEFAULT_PAUSE, Unchecked), Step("http_redir_disable", DEFAULT_PAUSE, Unchecked), CID_STEP, UrlStep(url)]
  }

  /** What `https_init` sends after the set-up: the CID, the URL, then SSL on. */
  function HttpsParams(url: string): seq<Step> {
    [CID_STEP, UrlStep(url), HTTPS_ENABLE]
  }

  /** `http_init`. */
  function HttpInitPlan(url: string): seq<Step> {
    BEARER_PLAN + HttpParams(url)
  }

  /** `https_init`. */
  function HttpsInitPlan(url: string): seq<Step> {
    BEARER_PLAN + HttpsParams(url)
  }

  /**
   * `http_init` writes the URL only after the CID reply classified OK; it
   * returns exactly when the URL reply classified OK too, and otherwise
   * raises `GPRSHTTPError` for a refused reply or the transport's error.
   */
  lemma HttpInitOrder(url: string, t: seq<Exchange>, r: Outcome)
    requires PlanRun(HttpInitPlan(url), t, r)
    ensures 1 <= |t| <= 9 && forall k :: 0 <= k < |t| ==> t[k].cmd == HttpInitPlan(url)[k].cmd
    ensures forall k :: 0 <= k < |t| - 1 ==> t[k].reply.Ok?
    ensures |t| == 9 ==> Accepts(AtOk, t[7].reply.value)
    ensures r == Pass <==> |t| == 9 && t[8].reply.Ok? && Accepts(AtOk, t[8].reply.value)
    ensures r.Fail? && t[|t| - 1].reply.Ok? ==> r.error == HTTPError && |t| >= 8
    ensures r.Fail? && t[|t| - 1].reply.Err? ==> r.error == t[|t| - 1].reply.error
  {
    assert HttpInitPlan(url) == [BEARER_TYPE, BEARER_APN, CONTEXT_OPEN, CONTEXT_QUERY, HTTP_START] + HttpParams(url);
    RanSpec(HttpInitPlan(url), t);
  }

  /**
   * `https_init` writes the URL only after the CID reply classified OK and
   * `AT+HTTPSSL=1` only after the URL reply did; it returns exactly when
   * all three classified OK.
   */
  lemma HttpsInitOrder(url: string, t: seq<Exchange>, r: Outcome)
    requires PlanRun(HttpsInitPlan(url), t, r)
    ensures 1 <= |t| <= 8 && forall k :: 0 <= k < |t| ==> t[k].cmd == HttpsInitPlan(url)[k].cmd
    ensures |t| >= 7 ==> t[5].reply.Ok? && Accepts(AtOk, t[5].reply.value)
    ensures |t| == 8 ==> t[6].reply.Ok? && Accepts(AtOk, t[6].reply.value)
    ensures r == Pass <==> |t| == 8 && t[7].reply.Ok? && Accepts(AtOk, t[7].reply.value)
    ensures r.Fail? && t[|t| - 1].reply.Ok? ==> r.error == HTTPError && |t| >= 6
  {
    assert HttpsInitPlan(url) == [BEARER_TYPE, BEARER_APN, CONTEXT_OPEN, CONTEXT_QUERY, HTTP_START] + HttpsParams(url);
    RanSpec(HttpsInitPlan(url), t);
  }

  // -------------------------------------------------------- HTTP tear-down

  const HTTP_TERMINATE: Step := Step("http_terminate_session", DEFAULT_PAUSE, Unchecked)
  const HTTP_CLOSE_CONTEXT: Step := Step("http_close_gprs_context", DEFAULT_PAUSE, Unchecked)

  /** `http_deinit`: `AT+HTTPTERM` and `AT+SAPBR=0,1`, neither judged. */
  const DEINIT_PLAN: seq<Step> := [HTTP_TERMINATE, HTTP_CLOSE_CONTEXT]

  /** `http_deinit` turns any exception of its calls into `GPRSHTTPError`. */
  ghost predicate DeinitRun(t: seq<Exchange>, r: Outcome) {
    Ran(DEINIT_PLAN, t) && r == if Verdict(DEINIT_PLAN, t) == Pass then Pass else Fail(HTTPError)
  }

  /** The result of `try: body finally: cleanup`: an exception of the clean-up replaces the body's result. */
  function Finally<T>(body: Result<T>, cleanup: Outcome): (r: Result<T>)
    ensures cleanup == Pass ==> r == body
    ensures cleanup.Fail? ==> r == Err(cleanup.error)
  {
    if cleanup.Fail? then Err(cleanup.error) else body
  }

  /**
   * The tear-down always writes `AT+HTTPTERM` and, unless that call
   * failed, `AT+SAPBR=0,1`; the request's own result survives exactly
   * when both calls returned, and otherwise it is `GPRSHTTPError`.
   */
  lemma CleanupEnds<T>(td: seq<Exchange>, c: Outcome, body: Result<T>)
    requires DeinitRun(td, c)
    ensures 1 <= |td| <= 2 && td[0].cmd == HTTP_TERMINATE.cmd
    ensures |td| == 2 ==> td[1].cmd == HTTP_CLOSE_CONTEXT.cmd
    ensures c == Pass <==> |td| == 2 && td[0].reply.Ok? && td[1].reply.Ok?
    ensures Finally(body, c) == if c == Pass then body else Err(HTTPError)
  {
    RanSpec(DEINIT_PLAN, td);
  }

  /** Two commands a sequence ends with. */
  predicate EndsWith(t: seq<Exchange>, first: string, second: string) {
    |t| >= 2 && t[|t| - 2].cmd == first && t[|t| - 1].cmd == second
  }

  /** Whatever ran before it, a request ends with its tear-down, and with both tear-down calls when that passed. */
  lemma CleanupTail<T>(t: seq<Exchange>, tb: seq<Exchange>, td: seq<Exchange>, c: Outcome, body: Result<T>, r: Result<T>)
    requires t == tb + td && DeinitRun(td, c) && r == Finally(body, c)
    ensures |t| >= 1 && (t[|t| - 1].cmd == HTTP_TERMINATE.cmd || t[|t| - 1].cmd == HTTP_CLOSE_CONTEXT.cmd)
    ensures r.Ok? ==> EndsWith(t, HTTP_TERMINATE.cmd, HTTP_CLOSE_CONTEXT.cmd)
  {
    RanSpec(DEINIT_PLAN, td);
    assert t[|t| - 1] == td[|td| - 1];
    if r.Ok? {
      assert c == Pass && t[|t| - 2] == td[0];
    }
  }

  // --------------------------------------------------------- HTTP requests

  const SESSION_START: Step := Step("http_get_session_start", DEFAULT_PAUSE, Unchecked)
  const GET_DATA: Step := Step("http_get_data", DEFAULT_PAUSE, Unchecked)

  /**
   * The GET request proper, cut at its parts: `AT+HTTPACTION=0` (`t2`),
   * the status poll started when it returned (`t3`, ending with `w`) and
   * `AT+HTTPREAD` (`t4`).  A transport error ends it; otherwise it yields
   * whether the start classified OK and the read's reply.
   */
  ghost predicate GetRequestParts(t2: seq<Exchange>, t3: seq<Exchange>, t4: seq<Exchange>, timeout: nat, w: Outcome,
                                  r: Result<(bool, string)>) {
    && |t2| == 1 && t2[0].cmd == SESSION_START.cmd
    && if t2[0].reply.Err? then t3 == [] && t4 == [] && r == Err(t2[0].reply.error)
       else
         && AwaitRun(t3, t2[0].at, timeout, w)
         && if w.Fail? then t4 == [] && r == Err(w.error)
            else
              && |t4| == 1 && t4[0].cmd == GET_DATA.cmd
              && r == if t4[0].reply.Err? then Err(t4[0].reply.error)
                      else Ok((Accepts(AtOk, t2[0].reply.value), t4[0].reply.value))
  }

  ghost predicate GetRequestRun(t: seq<Exchange>, timeout: nat, r: Result<(bool, string)>) {
    exists t2, t3, t4, w :: t == t2 + t3 + t4 && GetRequestParts(t2, t3, t4, timeout, w, r)
  }

  lemma GetRequestIntro(t2: seq<Exchange>, t3: seq<Exchange>, t4: seq<Exchange>, timeout: nat, w: Outcome,
                        r: Result<(bool, string)>)
    requires GetRequestParts(t2, t3, t4, timeout, w, r)
    ensures GetRequestRun(t2 + t3 + t4, timeout, r)
  {
  }

  /**
   * A GET request that returns made the start call, at least one status
   * poll and the read, in that order; what it yields is the start's
   * classification and the read's reply text.
   */
  lemma GetRequestOrder(t: seq<Exchange>, timeout: nat, r: Result<(bool, string)>)
    requires GetRequestRun(t, timeout, r) && r.Ok?
    ensures |t| >= 3 && t[0].cmd == SESSION_START.cmd && t[|t| - 1].cmd == GET_DATA.cmd
    ensures forall k :: 1 <= k < |t| - 1 ==> t[k].cmd == HTTP_STATUS_CMD
    ensures t[0].reply.Ok? && r.value.0 == Accepts(AtOk, t[0].reply.value)
    ensures t[|t| - 1].reply == Ok(r.value.1)
  {
    var t2, t3, t4, w :| t == t2 + t3 + t4 && GetRequestParts(t2, t3, t4, timeout, w, r);
    assert t[0] == t2[0] && t[|t| - 1] == t4[0];
    forall k | 1 <= k < |t| - 1 ensures t[k].cmd == HTTP_STATUS_CMD {
      assert t[k] == t3[k - 1];
    }
  }

  /** What `http_get` returns from its request: the parsed body when both the start and the read classified OK, else None. */
  function HttpGetResult(g: Result<(bool, string)>): Result<Option<string>> {
    if g.Err? then Err(g.error)
    else if g.value.0 && Accepts(AtOk, g.value.1) then Ok(Some(ParseHttpResponse(g.value.1)))
    else Ok(None)
  }

  /** The `try` block of `http_get`: set-up (`t1`, ending with `a`), then, when it returned, the request (`u`). */
  ghost predicate HttpGetBodyParts(t1: seq<Exchange>, u: seq<Exchange>, url: string, timeout: nat, a: Outcome,
                                   g: Result<(bool, string)>, r: Result<Option<string>>) {
    && PlanRun(HttpInitPlan(url), t1, a)
    && if a != Pass then u == [] && r == Err(a.error) else GetRequestRun(u, timeout, g) && r == HttpGetResult(g)
  }

  ghost predicate HttpGetBodyRun(t: seq<Exchange>, url: string, timeout: nat, r: Result<Option<string>>) {
    exists t1, u, a, g :: t == t1 + u && HttpGetBodyParts(t1, u, url, timeout, a, g, r)
  }

  lemma HttpGetBodyIntro(t1: seq<Exchange>, u: seq<Exchange>, url: string, timeout: nat, a: Outcome,
                         g: Result<(bool, string)>, r: Result<Option<string>>)
    requires HttpGetBodyParts(t1, u, url, timeout, a, g, r)
    ensures HttpGetBodyRun(t1 + u, url, timeout, r)
  {
  }

  /**
   * An `http_get` body that returns ran the whole set-up, then the start,
   * the status poll and the read; it yields a page exactly when the start
   * and the read both classified OK, and the page is the parse of the
   * read's reply.
   */
  lemma HttpGetBodyOrder(t: seq<Exchange>, url: string, timeout: nat, r: Result<Option<string>>)
    requires HttpGetBodyRun(t, url, timeout, r) && r.Ok?
    ensures |t| >= 12 && PlanRun(HttpInitPlan(url), t[..9], Pass)
    ensures t[9].cmd == SESSION_START.cmd && t[9].reply.Ok?
    ensures t[|t| - 1].cmd == GET_DATA.cmd && t[|t| - 1].reply.Ok?
    ensures r.value.Some? <==> Accepts(AtOk, t[9].reply.value) && Accepts(AtOk, t[|t| - 1].reply.value)
    ensures r.value.Some? ==> r.value.value == ParseHttpResponse(t[|t| - 1].reply.value)
  {
    var t1, u, a, g :| t == t1 + u && HttpGetBodyParts(t1, u, url, timeout, a, g, r);
    RanSpec(HttpInitPlan(url), t1);
    GetRequestOrder(u, timeout, g);
    assert t[..9] == t1;
    assert t[9] == u[0] && t[|t| - 1] == u[|u| - 1];
  }

  /** `http_get`: its `try` block (`tb`) and then `http_deinit` (`td`) in the `finally` clause. */
  ghost predicate HttpGetRun(t: seq<Exchange>, url: string, timeout: nat, r: Result<Option<string>>) {
    exists tb, td, body, c :: t == tb + td && HttpGetBodyRun(tb, url, timeout, body) && DeinitRun(td, c) && r == Finally(body, c)
  }

  /**
   * Every `http_get` ends with the tear-down: its last call is
   * `AT+HTTPTERM` or `AT+SAPBR=0,1`, and a request that returns ended with
   * both.
   */
  lemma HttpGetCleanup(t: seq<Exchange>, url: string, timeout: nat, r: Result<Option<string>>)
    requires HttpGetRun(t, url, timeout, r)
    ensures |t| >= 1 && (t[|t| - 1].cmd == HTTP_TERMINATE.cmd || t[|t| - 1].cmd == HTTP_CLOSE_CONTEXT.cmd)
    ensures r.Ok? ==> EndsWith(t, HTTP_TERMINATE.cmd, HTTP_CLOSE_CONTEXT.cmd)
  {
    var tb, td, body, c :| t == tb + td && HttpGetBodyRun(tb, url, timeout, body) && DeinitRun(td, c) && r == Finally(body, c);
    CleanupTail(t, tb, td, c, body, r);
  }

  /** The POST request proper: status, `AT+HTTPDATA=<size>,<window>`, the data and `AT+HTTPACTION=1`, none judged. */
  function PostPlan(data: string, upload: int): seq<Step> {
    [Step(HTTP_STATUS_CMD, DEFAULT_PAUSE, Unchecked),
     Step(HTTP_DATA_PREFIX + IntToDecimal(|data|) + "," + IntToDecimal(upload), DEFAULT_PAUSE, Unchecked),
     Step(data, HTTP_POST_PAUSE, Unchecked),
     Step("http_post_session_start", HTTP_POST_PAUSE, Unchecked)]
  }

  /** The POST request returns whether both the data reply and the action reply classified OK. */
  ghost predicate PostRequestRun(data: string, upload: int, u: seq<Exchange>, r: Result<bool>) {
    && Ran(PostPlan(data, upload), u)
    && if Verdict(PostPlan(data, upload), u).Fail? then r == Err(Verdict(PostPlan(data, upload), u).error)
       else |u| == 4 && u[2].reply.Ok? && u[3].reply.Ok?
            && r == Ok(Accepts(AtOk, u[2].reply.value) && Accepts(AtOk, u[3].reply.value))
  }

  /** The `try` block of `http_post`: set-up (`t1`, ending with `a`), then, when it returned, the request (`u`). */
  ghost predicate HttpPostBodyParts(t1: seq<Exchange>, u: seq<Exchange>, url: string, data: string, upload: int,
                                    a: Outcome, r: Result<bool>) {
    && PlanRun(HttpInitPlan(url), t1, a)
    && if a != Pass then u == [] && r == Err(a.error) else PostRequestRun(data, upload, u, r)
  }

  ghost predicate HttpPostBodyRun(t: seq<Exchange>, url: string, data: string, upload: int, r: Result<bool>) {
    exists t1, u, a :: t == t1 + u && HttpPostBodyParts(t1, u, url, data, upload, a, r)
  }

  lemma HttpPostBodyIntro(t1: seq<Exchange>, u: seq<Exchange>, url: string, data: string, upload: int, a: Outcome, r: Result<bool>)
    requires HttpPostBodyParts(t1, u, url, data, upload, a, r)
    ensures HttpPostBodyRun(t1 + u, url, data, upload, r)
  {
  }

  /** `http_post`: its `try` block (`tb`) and then `http_deinit` (`td`). */
  ghost predicate HttpPostRun(t: seq<Exchange>, url: string, data: string, upload: int, r: Result<bool>) {
    exists tb, td, body, c :: t == tb + td && HttpPostBodyRun(tb, url, data, upload, body) && DeinitRun(td, c) && r == Finally(body, c)
  }

  /**
   * A POST that returns a value ran the whole set-up, then the status
   * query, the size, the data and the action, in that order; the value
   * says whether the data and action replies both classified OK.
   */
  lemma HttpPostOrder(t: seq<Exchange>, url: string, data: string, upload: int, r: Result<bool>)
    requires HttpPostBodyRun(t, url, data, upload, r) && r.Ok?
    ensures |t| >= 4 && PlanRun(HttpInitPlan(url), t[..|t| - 4], Pass)
    ensures t[|t| - 4].cmd == HTTP_STATUS_CMD && t[|t| - 3].cmd == HTTP_DATA_PREFIX + IntToDecimal(|data|) + "," + IntToDecimal(upload)
    ensures t[|t| - 2].cmd == data && t[|t| - 1].cmd == "http_post_session_start"
    ensures t[|t| - 2].reply.Ok? && t[|t| - 1].reply.Ok?
    ensures r.value == (Accepts(AtOk, t[|t| - 2].reply.value) && Accepts(AtOk, t[|t| - 1].reply.value))
  {
    var t1, u, a :| t == t1 + u && HttpPostBodyParts(t1, u, url, data, upload, a, r);
    RanSpec(PostPlan(data, upload), u);
    assert t[..|t| - 4] == t1;
    assert t[|t| - 4..] == u;
  }

  /** The HTTPS read: the read's reply with every flush reply appended, and whether the loop ended. */
  ghost predicate HttpsGetBodyParts(t1: seq<Exchange>, u: seq<Exchange>, tf: seq<Exchange>, url: string, timeout: nat, fuel: nat,
                                    a: Outcome, g: Result<(bool, string)>, f: Outcome, r: Result<Option<string>>) {
    && PlanRun(HttpsInitPlan(url), t1, a)
    && if a != Pass then u == [] && tf == [] && r == Err(a.error)
       else
         && GetRequestRun(u, timeout, g)
         && if g.Err? then tf == [] && r == Err(g.error)
            else
              && FlushRun(fuel, tf, f)
              && r == if f.Fail? then Err(f.error)
                      else if g.value.0 then Ok(Some(ParseHttpResponse(g.value.1 + FlushText(tf))))
                      else Ok(None)
  }

  /** The `try` block of `https_get`: set-up, request, and the flush loop. */
  ghost predicate HttpsGetBodyRun(t: seq<Exchange>, url: string, timeout: nat, fuel: nat, r: Result<Option<string>>) {
    exists t1, u, tf, a, g, f :: t == t1 + u + tf && HttpsGetBodyParts(t1, u, tf, url, timeout, fuel, a, g, f, r)
  }

  lemma HttpsGetBodyIntro(t1: seq<Exchange>, u: seq<Exchange>, tf: seq<Exchange>, url: string, timeout: nat, fuel: nat,
                          a: Outcome, g: Result<(bool, string)>, f: Outcome, r: Result<Option<string>>)
    requires HttpsGetBodyParts(t1, u, tf, url, timeout, fuel, a, g, f, r)
    ensures HttpsGetBodyRun(t1 + u + tf, url, timeout, fuel, r)
  {
  }

  /** Where the parts of a run cut in three sit in the whole. */
  lemma ThreeParts(a: seq<Exchange>, b: seq<Exchange>, c: seq<Exchange>)
    requires b != [] && c != []
    ensures var t := a + b + c; t[..|a|] == a && t[|a|] == b[0] && t[|a| + |b| - 1] == b[|b| - 1]
    ensures var t := a + b + c; t[|a| + |b|..] == c && t[|t| - 1] == c[|c| - 1]
  {
    var t := a + b + c;
    assert t[..|a|] == a;
    assert t[|a| + |b|..] == c;
  }

  /**
   * An `https_get` body that returns a page ran the whole set-up, a start
   * that classified OK, the status poll, the read, and flush rounds the
   * last of which classified OK; the page is the parse of the read's
   * reply followed by every flush reply.  A body that returns at all
   * returns a page exactly when its start classified OK.
   */
  lemma HttpsGetBodyOrder(t: seq<Exchange>, url: string, timeout: nat, fuel: nat, r: Result<Option<string>>)
    requires HttpsGetBodyRun(t, url, timeout, fuel, r) && r.Ok?
    ensures |t| >= 12 && PlanRun(HttpsInitPlan(url), t[..8], Pass)
    ensures t[8].cmd == SESSION_START.cmd && t[8].reply.Ok?
    ensures r.value.Some? <==> Accepts(AtOk, t[8].reply.value)
    ensures t[|t| - 1].cmd == FLUSH_CMD && t[|t| - 1].reply.Ok? && Accepts(AtOk, t[|t| - 1].reply.value)
    ensures r.value.Some? ==>
      exists j :: (10 <= j < |t| - 1 && t[j].cmd == GET_DATA.cmd && t[j].reply.Ok? &&
                   r.value.value == ParseHttpResponse(t[j].reply.value + FlushText(t[j + 1..])))
  {
    var t1, u, tf, a, g, f :| t == t1 + u + tf && HttpsGetBodyParts(t1, u, tf, url, timeout, fuel, a, g, f, r);
    assert a == Pass && g.Ok? && f == Pass;
    RanSpec(HttpsInitPlan(url), t1);
    GetRequestOrder(u, timeout, g);
    FlushPassEnds(fuel, tf);
    ThreeParts(t1, u, tf);
    var j := |t1| + |u| - 1;
    if r.value.Some? {
      assert r.value.value == ParseHttpResponse(t[j].reply.value + FlushText(t[j + 1..]));
    }
  }

  /** `https_get`: its `try` block (`tb`) and then `http_deinit` (`td`). */
  ghost predicate HttpsGetRun(t: seq<Exchange>, url: string, timeout: nat, fuel: nat, r: Result<Option<string>>) {
    exists tb, td, body, c :: t == tb + td && HttpsGetBodyRun(tb, url, timeout, fuel, body) && DeinitRun(td, c) && r == Finally(body, c)
  }

  /** Every `https_get` ends with the tear-down, and one that returns ended with both of its calls. */
  lemma HttpsGetCleanup(t: seq<Exchange>, url: string, timeout: nat, fuel: nat, r: Result<Option<string>>)
    requires HttpsGetRun(t, url, timeout, fuel, r)
    ensures |t| >= 1 && (t[|t| - 1].cmd == HTTP_TERMINATE.cmd || t[|t| - 1].cmd == HTTP_CLOSE_CONTEXT.cmd)
    ensures r.Ok? ==> EndsWith(t, HTTP_TERMINATE.cmd, HTTP_CLOSE_CONTEXT.cmd)
  {
    var tb, td, body, c :| t == tb + td && HttpsGetBodyRun(tb, url, timeout, fuel, body) && DeinitRun(td, c) && r == Finally(body, c);
    CleanupTail(t, tb, td, c, body, r);
  }

  /** Every `http_post` ends with the tear-down, and one that returns ended with both of its calls. */
  lemma HttpPostCleanup(t: seq<Exchange>, url: string, data: string, upload: int, r: Result<bool>)
    requires HttpPostRun(t, url, data, upload, r)
    ensures |t| >= 1 && (t[|t| - 1].cmd == HTTP_TERMINATE.cmd || t[|t| - 1].cmd == HTTP_CLOSE_CONTEXT.cmd)
    ensures r.Ok? ==> EndsWith(t, HTTP_TERMINATE.cmd, HTTP_CLOSE_CONTEXT.cmd)
  {
    var tb, td, body, c :| t == tb + td && HttpPostBodyRun(tb, url, data, upload, body) && DeinitRun(td, c) && r == Finally(body, c);
    CleanupTail(t, tb, td, c, body, r);
  }

  class TcpIp {
    /** The controller whose link the operations use. */
    const controller: Sim800
    /** How long the status poll may run, in milliseconds. */
    const httpRequestTimeout: nat
    /** The upload window written into `AT+HTTPDATA`. */
    const httpPostUploadTimeout: int

    constructor (controller: Sim800, httpRequestTimeout: nat, httpPostUploadTimeout: int)
      ensures this.controller == controller
      ensures this.httpRequestTimeout == httpRequestTimeout && this.httpPostUploadTimeout == httpPostUploadTimeout
    {
      this.controller := controller;
      this.httpRequestTimeout := httpRequestTimeout;
      this.httpPostUploadTimeout := httpPostUploadTimeout;
    }

    /** `connect_tcp`: `AT+CIPSTART` to the address and port, whose reply must show `CONNECT OK`. */
    method ConnectTcp(address: string, port: int, pause: nat) returns (r: Outcome, ghost t: seq<Exchange>)
      requires pause > 0
      requires controller.Consistent()
      modifies controller`now, controller`transcript
      ensures controller.Records(t)
      ensures PlanRun([ConnectTcpStep(address, port, pause)], t, r)
    {
      var res;
      res, t := controller.Single(ConnectTcpStep(address, port, pause));
      r := Status(res);
    }

    /** `disconnect_tcp`: `close_tcp` and then `AT+CIPSHUT`; the replies are only logged. */
    method DisconnectTcp() returns (r: Outcome, ghost t: seq<Exchange>)
      requires controller.Consistent()
      modifies controller`now, controller`transcript
      ensures controller.Records(t)
      ensures PlanRun(DISCONNECT_PLAN, t, r)
    {
      ghost var start, begin := controller.transcript, controller.now;
      assert DISCONNECT_PLAN[..0] == [] && controller.transcript == start + [];
      var res;
      res, t := controller.PlanStep(start, begin, DISCONNECT_PLAN, 0, []);
      if res.Err? {
        return Fail(res.error), t;
      }
      res, t := controller.PlanStep(start, begin, DISCONNECT_PLAN, 1, t);
      r := Status(res);
    }

    /**
     * The conversation of `send_tcp_message` once `connected_ok` has
     * returned: `connect_tcp`, the length, the message and
     * `disconnect_tcp`, stopping at the first exception.
     */
    method Converse(address: string, port: int, message: string) returns (r: Outcome, ghost t: seq<Exchange>)
      requires controller.Consistent()
      modifies controller`now, controller`transcript
      ensures controller.Records(t)
      ensures PlanRun(TcpSendPlan(address, port, message), t, r)
    {
      ghost var plan := TcpSendPlan(address, port, message);
      ghost var connect := [ConnectTcpStep(address, port, TCP_CONNECT_PAUSE)];
      assert plan == connect + PayloadPlan(message) + DISCONNECT_PLAN;
      var b, t2 := ConnectTcp(address, port, TCP_CONNECT_PAUSE);
      if b != Pass {
        RanStopsEarly(connect, PayloadPlan(message) + DISCONNECT_PLAN, t2);
        assert connect + (PayloadPlan(message) + DISCONNECT_PLAN) == plan;
        return b, t2;
      }
      var c, t3 := SendPayload(message);
      RanAppend(connect, PayloadPlan(message), t2, t3);
      controller.Joined(old(controller.transcript), t2, t3);
      if c != Pass {
        RanStopsEarly(connect + PayloadPlan(message), DISCONNECT_PLAN, t2 + t3);
        return c, t2 + t3;
      }
      var d, t4 := DisconnectTcp();
      controller.Joined(old(controller.transcript), t2 + t3, t4);
      RanAppend(connect + PayloadPlan(message), DISCONNECT_PLAN, t2 + t3, t4);
      r, t := d, t2 + t3 + t4;
    }

    /** The length announcement and then the message itself, neither of which is checked. */
    method SendPayload(message: string) returns (r: Outcome, ghost t: seq<Exchange>)
      requires controller.Consistent()
      modifies controller`now, controller`transcript
      ensures controller.Records(t)
      ensures PlanRun(PayloadPlan(message), t, r)
    {
      var plan := PayloadPlan(message);
      ghost var start, begin := controller.transcript, controller.now;
      assert plan[..0] == [] && controller.transcript == start + [];
      var res;
      res, t := controller.PlanStep(start, begin, plan, 0, []);
      if res.Err? { return Fail(res.error), t; }
      res, t := controller.PlanStep(start, begin, plan, 1, t);
      r := Status(res);
    }

    /**
     * `send_tcp_message`: `connected_ok`, `connect_tcp`, the length, the
     * message and `disconnect_tcp`, stopping at the first exception. Only
     * the `connected_ok` part `c` may store an address: the message is sent
     * as it is, and may read like any command.
     */
    method SendTcpMessage(address: string, port: int, message: string) returns (r: Outcome, ghost t: seq<Exchange>, ghost c: seq<Exchange>)
      requires controller.Consistent()
      modifies controller`now, controller`transcript, controller`ip
      ensures controller.Records(t)
      ensures TcpSendRun(t, old(controller.now), address, port, message, r)
      ensures TcpSendAfter(t, c, old(controller.now), address, port, message, r)
      ensures controller.ip == StoredIp(c, old(controller.ip))
    {
      var a;
      a, c := controller.ConnectedOk();
      if a != Pass {
        TcpSendIntro(c, [], old(controller.now), address, port, message, a, a);
        assert c + [] == c;
        return a, c, c;
      }
      ghost var u;
      r, u := Converse(address, port, message);
      controller.Joined(old(controller.transcript), c, u);
      TcpSendIntro(c, u, old(controller.now), address, port, message, a, r);
      t := c + u;
    }

    /**
     * `_await_get_session_complete`: poll `AT+HTTPSTATUS?`, counting the
     * replies that report the GET session over, until fifty have or the
     * request timeout has elapsed; the timeout does not raise, a transport
     * error does.
     */
    method AwaitGetSessionComplete() returns (r: Outcome, ghost t: seq<Exchange>)
      requires controller.Consistent()
      modifies controller`now, controller`transcript
      ensures controller.Records(t)
      ensures AwaitRun(t, old(controller.now), httpRequestTimeout, r)
      ensures controller.now == Clock(t, old(controller.now))
    {
      var finishedCounts := 0;
      var start := controller.now;
      t := [];
      while true
        invariant controller.transcript == old(controller.transcript) + t && Live(t, controller.linked) && controller.Consistent()
        invariant start == old(controller.now) <= controller.now && controller.now - start <= httpRequestTimeout
        invariant AwaitRounds(t, start, httpRequestTimeout)
        invariant finishedCounts == FinishedCount(t) < COUNTS_BEFORE_FINISHED
        invariant controller.now == Clock(t, start)
        decreases httpRequestTimeout - (controller.now - start)
      {
        var res, e := controller.DoAtCommand(HTTP_STATUS_CMD, DEFAULT_PAUSE);
        controller.Extended(old(controller.transcript), t, e);
        if res.Err? {
          AwaitRoundLast(t, e, start, httpRequestTimeout, Fail(res.error));
          return Fail(res.error), t + [e];
        }
        FinishedCountSnoc(t, e);
        if Find(res.value, GET_FINISHED) != -1 {
          finishedCounts := finishedCounts + 1;
        }
        if finishedCounts >= COUNTS_BEFORE_FINISHED || controller.now - start >= httpRequestTimeout {
          AwaitRoundLast(t, e, start, httpRequestTimeout, Pass);
          return Pass, t + [e];
        }
        AwaitRoundNext(t, e, start, httpRequestTimeout);
        t := t + [e];
      }
    }

    /** `http_deinit`: `AT+HTTPTERM` and `AT+SAPBR=0,1`; any exception becomes `GPRSHTTPError`. */
    method HttpDeinit() returns (r: Outcome, ghost t: seq<Exchange>)
      requires controller.Consistent()
      modifies controller`now, controller`transcript
      ensures controller.Records(t)
      ensures DeinitRun(t, r)
    {
      ghost var start, begin := controller.transcript, controller.now;
      assert DEINIT_PLAN[..0] == [] && controller.transcript == start + [];
      var res;
      res, t := controller.PlanStep(start, begin, DEINIT_PLAN, 0, []);
      if res.Ok? {
        res, t := controller.PlanStep(start, begin, DEINIT_PLAN, 1, t);
      }
      r := if res.Ok? then Pass else Fail(HTTPError);
    }

    /** The five set-up commands `http_init` and `https_init` both open with; their replies are only logged. */
    method BearerSetUp() returns (r: Outcome, ghost t: seq<Exchange>)
      requires controller.Consistent()
      modifies controller`now, controller`transcript
      ensures controller.Records(t)
      ensures PlanRun(BEARER_PLAN, t, r)
    {
      var plan := BEARER_PLAN;
      ghost var start, begin := controller.transcript, controller.now;
      assert plan[..0] == [] && controller.transcript == start + [];
      var res;
      res, t := controller.PlanStep(start, begin, plan, 0, []);
      if res.Err? { return Fail(res.error), t; }
      res, t := controller.PlanStep(start, begin, plan, 1, t);
      if res.Err? { return Fail(res.error), t; }
      res, t := controller.PlanStep(start, begin, plan, 2, t);
      if res.Err? { return Fail(res.error), t; }
      res, t := controller.PlanStep(start, begin, plan, 3, t);
      if res.Err? { return Fail(res.error), t; }
      res, t := controller.PlanStep(start, begin, plan, 4, t);
      r := Status(res);
    }

    /**
     * `http_init`: the bearer set-up, SSL and redirects off, then the CID
     * and the URL, each of which must classify OK; it returns True or
     * raises, so the callers' `failed init` branch is never taken.
     */
    method HttpInit(url: string) returns (r: Outcome, ghost t: seq<Exchange>)
      requires controller.Consistent()
      modifies controller`now, controller`transcript
      ensures controller.Records(t)
      ensures PlanRun(HttpInitPlan(url), t, r)
    {
      var a, t1 := BearerSetUp();
      if a != Pass {
        RanStopsEarly(BEARER_PLAN, HttpParams(url), t1);
        return a, t1;
      }
      ghost var u;
      r, u := HttpParamsSet(url);
      controller.Joined(old(controller.transcript), t1, u);
      RanAppend(BEARER_PLAN, HttpParams(url), t1, u);
      t := t1 + u;
    }

    /** The second half of `http_init`: SSL and redirects off, the CID and the URL, stopping at the first that does not classify OK. */
    method HttpParamsSet(url: string) returns (r: Outcome, ghost t: seq<Exchange>)
      requires controller.Consistent()
      modifies controller`now, controller`transcript
      ensures controller.Records(t)
      ensures PlanRun(HttpParams(url), t, r)
    {
      var plan := HttpParams(url);
      ghost var start, begin := controller.transcript, controller.now;
      assert plan[..0] == [] && controller.transcript == start + [];
      var res;
      res, t := controller.PlanStep(start, begin, plan, 0, []);
      if res.Err? { return Fail(res.error), t; }
      res, t := controller.PlanStep(start, begin, plan, 1, t);
      if res.Err? { return Fail(res.error), t; }
      res, t := controller.PlanStep(start, begin, plan, 2, t);
      if res.Err? { return Fail(res.error), t; }
      res, t := controller.PlanStep(start, begin, plan, 3, t);
      r := Status(res);
    }

    /**
     * `https_init`: the bearer set-up, the CID, the URL and SSL on, the
     * last three of which must classify OK.
     */
    method HttpsInit(url: string) returns (r: Outcome, ghost t: seq<Exchange>)
      requires controller.Consistent()
      modifies controller`now, controller`transcript
      ensures controller.Records(t)
      ensures PlanRun(HttpsInitPlan(url), t, r)
    {
      var a, t1 := BearerSetUp();
      if a != Pass {
        RanStopsEarly(BEARER_PLAN, HttpsParams(url), t1);
        return a, t1;
      }
      ghost var u;
      r, u := HttpsParamsSet(url);
      controller.Joined(old(controller.transcript), t1, u);
      RanAppend(BEARER_PLAN, HttpsParams(url), t1, u);
      t := t1 + u;
    }

    /** The second half of `https_init`: the CID, the URL and SSL on, stopping at the first that does not classify OK. */
    method HttpsParamsSet(url: string) returns (r: Outcome, ghost t: seq<Exchange>)
      requires controller.Consistent()
      modifies controller`now, controller`transcript
      ensures controller.Records(t)
      ensures PlanRun(HttpsParams(url), t, r)
    {
      var plan := HttpsParams(url);
      ghost var start, begin := controller.transcript, controller.now;
      assert plan[..0] == [] && controller.transcript == start + [];
      var res;
      res, t := controller.PlanStep(start, begin, plan, 0, []);
      if res.Err? { return Fail(res.error), t; }
      res, t := controller.PlanStep(start, begin, plan, 1, t);
      if res.Err? { return Fail(res.error), t; }
      res, t := controller.PlanStep(start, begin, plan, 2, t);
      r := Status(res);
    }

    /**
     * The GET request both `http_get` and `https_get` make once set up:
     * `AT+HTTPACTION=0`, whose classification is kept, the status poll,
     * and `AT+HTTPREAD`, whose reply is returned.
     */
    method GetRequest() returns (r: Result<(bool, string)>, ghost t: seq<Exchange>)
      requires controller.Consistent()
      modifies controller`now, controller`transcript
      ensures controller.Records(t)
      ensures GetRequestRun(t, httpRequestTimeout, r)
    {
      var sess, t2 := controller.Single(SESSION_START);
      if sess.Err? {
        GetRequestIntro(t2, [], [], httpRequestTimeout, Pass, Err(sess.error));
        assert t2 + [] + [] == t2;
        return Err(sess.error), t2;
      }
      var chkSess := Accepts(AtOk, sess.value);
      var w, t3 := AwaitGetSessionComplete();
      controller.Joined(old(controller.transcript), t2, t3);
      if w.Fail? {
        GetRequestIntro(t2, t3, [], httpRequestTimeout, w, Err(w.error));
        assert t2 + t3 + [] == t2 + t3;
        return Err(w.error), t2 + t3;
      }
      var data, t4 := controller.Single(GET_DATA);
      controller.Joined(old(controller.transcript), t2 + t3, t4);
      r := if data.Err? then Err(data.error) else Ok((chkSess, data.value));
      GetRequestIntro(t2, t3, t4, httpRequestTimeout, w, r);
      t := t2 + t3 + t4;
    }

    /** The `try` block of `http_get`. */
    method HttpGetBody(url: string) returns (r: Result<Option<string>>, ghost t: seq<Exchange>)
      requires controller.Consistent()
      modifies controller`now, controller`transcript
      ensures controller.Records(t)
      ensures HttpGetBodyRun(t, url, httpRequestTimeout, r)
    {
      var a, t1 := HttpInit(url);
      if a != Pass {
        HttpGetBodyIntro(t1, [], url, httpRequestTimeout, a, Err(a.error), Err(a.error));
        assert t1 + [] == t1;
        return Err(a.error), t1;
      }
      var g, u := GetRequest();
      controller.Joined(old(controller.transcript), t1, u);
      r := HttpGetResult(g);
      HttpGetBodyIntro(t1, u, url, httpRequestTimeout, a, g, r);
      t := t1 + u;
    }

    /**
     * `http_get`: set up, request, and return the parsed body when both
     * the start and the read classified OK, None otherwise; `http_deinit`
     * runs on every path and its failure replaces the result.
     */
    method HttpGet(url: string) returns (r: Result<Option<string>>, ghost t: seq<Exchange>)
      requires controller.Consistent()
      modifies controller`now, controller`transcript
      ensures controller.Records(t)
      ensures HttpGetRun(t, url, httpRequestTimeout, r)
    {
      var body, tb := HttpGetBody(url);
      var c, td := HttpDeinit();
      controller.Joined(old(controller.transcript), tb, td);
      r, t := Finally(body, c), tb + td;
    }

    /**
     * The request half of `http_post` once set up: the status query, the
     * size, the data and the action, each sent only after the one before
     * it was answered; the value says whether the data and action
     * replies both classified OK.
     */
    method PostRequest(data: string) returns (r: Result<bool>, ghost u: seq<Exchange>)
      requires controller.Consistent()
      modifies controller`now, controller`transcript
      ensures controller.Records(u)
      ensures PostRequestRun(data, httpPostUploadTimeout, u, r)
    {
      var plan := PostPlan(data, httpPostUploadTimeout);
      ghost var start, begin := controller.transcript, controller.now;
      assert plan[..0] == [] && controller.transcript == start + [];
      var res;
      res, u := controller.PlanStep(start, begin, plan, 0, []);
      if res.Err? { return Err(res.error), u; }
      res, u := controller.PlanStep(start, begin, plan, 1, u);
      if res.Err? { return Err(res.error), u; }
      res, u := controller.PlanStep(start, begin, plan, 2, u);
      if res.Err? { return Err(res.error), u; }
      var chkData := Accepts(AtOk, res.value);
      res, u := controller.PlanStep(start, begin, plan, 3, u);
      r := if res.Err? then Err(res.error) else Ok(chkData && Accepts(AtOk, res.value));
    }

    /** The `try` block of `http_post`. */
    method HttpPostBody(url: string, data: string) returns (r: Result<bool>, ghost t: seq<Exchange>)
      requires controller.Consistent()
      modifies controller`now, controller`transcript
      ensures controller.Records(t)
      ensures HttpPostBodyRun(t, url, data, httpPostUploadTimeout, r)
    {
      var a, t1 := HttpInit(url);
      if a != Pass {
        HttpPostBodyIntro(t1, [], url, data, httpPostUploadTimeout, a, Err(a.error));
        assert t1 + [] == t1;
        return Err(a.error), t1;
      }
      ghost var u;
      r, u := PostRequest(data);
      controller.Joined(old(controller.transcript), t1, u);
      HttpPostBodyIntro(t1, u, url, data, httpPostUploadTimeout, a, r);
      t := t1 + u;
    }

    /**
     * `http_post`: set up, then the status query, the size, the data and
     * the action, returning whether the data and action replies both
     * classified OK; `http_deinit` runs on every path.
     */
    method HttpPost(url: string, data: string) returns (r: Result<bool>, ghost t: seq<Exchange>)
      requires controller.Consistent()
      modifies controller`now, controller`transcript
      ensures controller.Records(t)
      ensures HttpPostRun(t, url, data, httpPostUploadTimeout, r)
    {
      var body, tb := HttpPostBody(url, data);
      var c, td := HttpDeinit();
      controller.Joined(old(controller.transcript), tb, td);
      r, t := Finally(body, c), tb + td;
    }

    /**
     * The flush loop of `https_get`: send `AT`, appending each reply to
     * `data`, until a reply classifies OK; at most `fuel` rounds.
     */
    method Flush(data: string, fuel: nat) returns (r: Result<string>, ghost t: seq<Exchange>)
      requires controller.Consistent()
      modifies controller`now, controller`transcript
      ensures controller.Records(t)
      ensures FlushRun(fuel, t, Status(r))
      ensures r.Ok? ==> r.value == data + FlushText(t)
    {
      var resData := data;
      var rounds := 0;
      t := [];
      while true
        invariant controller.transcript == old(controller.transcript) + t && Live(t, controller.linked) && controller.Consistent() && old(controller.now) <= controller.now
        invariant rounds == |t| <= fuel && FlushRounds(t) && resData == data + FlushText(t)
        decreases fuel - rounds
      {
        if rounds == fuel {
          FlushOutOfFuel(fuel, t);
          return Err(FlushFuelExhausted), t;
        }
        var res, e := controller.DoAtCommand(FLUSH_CMD, DEFAULT_PAUSE);
        controller.Extended(old(controller.transcript), t, e);
        FlushTextSnoc(data, t, e);
        if res.Err? {
          FlushRoundLast(fuel, t, e, Fail(res.error));
          return Err(res.error), t + [e];
        }
        resData := resData + res.value;
        if Accepts(AtOk, res.value) {
          FlushRoundLast(fuel, t, e, Pass);
          return Ok(resData), t + [e];
        }
        FlushRoundNext(t, e);
        rounds := rounds + 1;
        t := t + [e];
      }
    }

    /** The `try` block of `https_get`. */
    method HttpsGetBody(url: string, fuel: nat) returns (r: Result<Option<string>>, ghost t: seq<Exchange>)
      requires controller.Consistent()
      modifies controller`now, controller`transcript
      ensures controller.Records(t)
      ensures HttpsGetBodyRun(t, url, httpRequestTimeout, fuel, r)
    {
      var a, t1 := HttpsInit(url);
      if a != Pass {
        HttpsGetBodyIntro(t1, [], [], url, httpRequestTimeout, fuel, a, Err(a.error), Pass, Err(a.error));
        assert t1 + [] + [] == t1;
        return Err(a.error), t1;
      }
      var g, u := GetRequest();
      controller.Joined(old(controller.transcript), t1, u);
      if g.Err? {
        HttpsGetBodyIntro(t1, u, [], url, httpRequestTimeout, fuel, a, g, Pass, Err(g.error));
        assert t1 + u + [] == t1 + u;
        return Err(g.error), t1 + u;
      }
      var flushed, tf := Flush(g.value.1, fuel);
      controller.Joined(old(controller.transcript), t1 + u, tf);
      r := if flushed.Err? then Err(flushed.error)
           else if g.value.0 then Ok(Some(ParseHttpResponse(flushed.value)))
           else Ok(None);
      HttpsGetBodyIntro(t1, u, tf, url, httpRequestTimeout, fuel, a, g, Status(flushed), r);
      t := t1 + u + tf;
    }

    /**
     * `https_get`: set up with SSL, request, flush, and return the parsed
     * body when the start classified OK, None otherwise; `http_deinit`
     * runs on every path.
     */
    method HttpsGet(url: string, fuel: nat) returns (r: Result<Option<string>>, ghost t: seq<Exchange>)
      requires controller.Consistent()
      modifies controller`now, controller`transcript
      ensures controller.Records(t)
      ensures HttpsGetRun(t, url, httpRequestTimeout, fuel, r)
    {
      var body, tb := HttpsGetBody(url, fuel);
      var c, td := HttpDeinit();
      controller.Joined(old(controller.transcript), tb, td);
      r, t := Finally(body, c), tb + td;
    }

    /** `https_post`: unsupported; raises `GPRSHTTPError` without writing anything. */
    method HttpsPost(url: string, data: string) returns (r: Outcome)
      ensures r == Fail(HTTPError)
    {
      r := Fail(HTTPError);
    }
  }
}
