/**
 * What each controller operation does to the command exchange, stated over
 * the exchanges it produces.
 *
 * A run predicate says of a sequence of exchanges `t` (the calls one
 * operation made, in order) and a result `r` that `t` and `r` are what the
 * operation produces when started at clock `start`.  Straight-line command
 * sequences are plans (`PlanRun`); the polling loops of the controller have
 * their own predicates, which say which command each round sends, why the loop
 * went on after every round but the last, and why it stopped.  Operations
 * that call other operations in order, stopping at the first one that
 * raises, are cut at their parts: a `...Parts` predicate says what each
 * part did and that a part runs only when the parts before it returned
 * normally, and the `...Run` predicate says that some such cut exists.
 */
module Session {
  import opened Errors
  import opened PyText
  import opened Catalog
  import opened Classify
  import opened Transport

  // ------------------------------------------------------- timing (milliseconds)

  /** The await window of `init_serial` and of the boot monitor. */
  const BOOT_MAX_AWAIT: nat := 30000
  /** The sleep between rounds of `init_serial` and of the boot monitor. */
  const POLL_SLEEP: nat := 100
  /** The await window of `get_ip`. */
  const IP_MAX_AWAIT: nat := 10000
  /** The sleep between rounds of `get_ip`. */
  const IP_RETRY_SLEEP: nat := 1000
  const GPRS_ENABLE_WAIT: nat := 5000
  const PDP_ENABLE_WAIT: nat := 2000
  const WIRELESS_ENABLE_WAIT: nat := 5000
  /** The three one-second sleeps of the hardware reset pulse train. */
  const GPIO_RESET_TIME: nat := 3000
  /** The time forced between two SMS sends. */
  const SMS_THROTTLE: nat := 600000

  // ------------------------------------------------------ controller commands

  const AT_CHECK: Step := Step("test_at", DEFAULT_PAUSE, Checked(AtOk, ATCheckError))
  const GPRS_STATUS: Step := Step("test_grps_service_status", DEFAULT_PAUSE, Checked(AtOk, GPRSCheckError))
  const GPRS_ATTACH: Step := Step("enable_gprs", GPRS_ENABLE_WAIT, AttachFlag(true, GPRSError))
  const GPRS_DETACH: Step := Step("disable_gprs", DEFAULT_PAUSE, AttachFlag(false, GPRSError))
  const PDP_CLOSE: Step := Step("close_pdp", DEFAULT_PAUSE, Refused(PdpShutOk, GPRSError))
  const PDP_ENABLE: Step := Step("set_cipmode", PDP_ENABLE_WAIT, Checked(AtOk, SetProviderError))
  const WIRELESS_ENABLE: Step := Step("enable_wireless", WIRELESS_ENABLE_WAIT, Checked(NoError, SetProviderError))
  const PROVIDER_QUERY: Step := Step("get_provider", DEFAULT_PAUSE, Checked(AtOk, GetProviderError))
  const SIGNAL_QUERY: Step := Step("get_signal_quality", DEFAULT_PAUSE, Checked(AtOk, GPRSError))
  /** Ctrl-Z, which ends SMS text entry. */
  const TEXT_INPUT_ESCAPE: Step := Step("\U{1A}", DEFAULT_PAUSE, Unchecked)
  /** `check_stuck`'s two probes; their replies are judged afterwards, together. */
  const STUCK_PROBES: seq<Step> := [Step("get_ip", DEFAULT_PAUSE, Unchecked), Step("enable_wireless", DEFAULT_PAUSE, Unchecked)]
  /** `reset_gprs`: `disable_pdp` then `disable_gprs`. */
  const GPRS_RESET: seq<Step> := [PDP_CLOSE, GPRS_DETACH]

  function SetProviderStep(provider: string): Step {
    Step(AT_COMMANDS["set_provider"] + provider, DEFAULT_PAUSE, Checked(AtOk, SetProviderError))
  }

  // ---------------------------------------------------------------- get_ip

  /** One round of `get_ip` on a decoded reply: the address, or the `GPRSGetIpError` that makes it retry. */
  function IpOf(res: string): Result<string> {
    if Find(res, ERROR_TOKEN) != -1 then Err(GetIpError)
    else if IsDottedQuad(ParseIp(res)) then Ok(ParseIp(res))
    else Err(GetIpError)
  }

  /** A round that `get_ip` retries: the reply decoded but carried no acceptable address. */
  predicate IpRetry(reply: Result<string>) {
    reply.Ok? && IpOf(reply.value).Err?
  }

  lemma DottedQuadHasNoE(ip: string)
    requires IsDottedQuad(ip)
    ensures 'E' !in ip
  {
    var p := Split(ip, ".");
    SplitJoin(ip, ".");
    JoinFour(p, ".");
    forall k | 0 <= k < 4 ensures 'E' !in p[k] {
      assert IsOctetText(p[k]);
    }
    var a := p[0] + ".";
    var b := a + p[1] + ".";
    var c := b + p[2] + ".";
    assert 'E' !in a && 'E' !in b && 'E' !in c;
    assert ip == c + p[3];
  }

  /** A reply that echoes the command and carries an address, then line ends, is accepted with that address. */
  lemma IpOfReply(ip: string, tail: string)
    requires IsDottedQuad(ip)
    requires forall i :: 0 <= i < |tail| ==> tail[i] in CRLF
    ensures IpOf(CIFSR_CHARS + ip + tail) == Ok(ip)
  {
    DottedQuadHasNoE(ip);
    MissingCharNoOccurrence(CIFSR_CHARS + ip + tail, ERROR_TOKEN, 0);
    ParseIpOfReply(ip, tail);
  }

  /** The documented reply `AT+CIFSR\r\r\n100.100.100.5\r\n` is accepted with `100.100.100.5`. */
  lemma IpOfExample()
    ensures IpOf(CIFSR_CHARS + EXAMPLE_IP + CRLF) == Ok(EXAMPLE_IP)
  {
    ExampleAddress();
    IpOfReply(EXAMPLE_IP, CRLF);
  }

  // ----------------------------------------------------------- boot monitor

  const CPIN_READY: string := "+CPIN: READY"
  const CALL_READY: string := "Call Ready"
  const SMS_READY: string := "SMS Ready"
  const REQUIRED_MARKERS: seq<string> := [CPIN_READY, CALL_READY, SMS_READY]

  /** The markers one boot poll appends to the list of seen messages, in the order the monitor checks them. */
  function MarkersIn(res: string): (m: seq<string>)
    ensures |m| <= |REQUIRED_MARKERS|
  {
    (if Find(res, CPIN_READY) != -1 then [CPIN_READY] else [])
    + (if Find(res, CALL_READY) != -1 then [CALL_READY] else [])
    + (if Find(res, SMS_READY) != -1 then [SMS_READY] else [])
  }

  /** One poll contributes exactly the required markers its reply holds, each at most once. */
  lemma MarkersInSpec(res: string)
    ensures forall x :: x in MarkersIn(res) <==> x in REQUIRED_MARKERS && Occurs(res, x)
    ensures forall i, j :: 0 <= i < j < |MarkersIn(res)| ==> MarkersIn(res)[i] != MarkersIn(res)[j]
  {
    FindSpec(res, CPIN_READY);
    FindSpec(res, CALL_READY);
    FindSpec(res, SMS_READY);
  }

  /** The list of seen messages after the polls of `t`; a poll that raised appends nothing. */
  function Seen(t: seq<Exchange>): seq<string> {
    if t == [] then []
    else Seen(t[..|t| - 1]) + (if t[|t| - 1].reply.Ok? then MarkersIn(t[|t| - 1].reply.value) else [])
  }

  /** The list only grows: what was seen after some polls is a prefix of what is seen after more. */
  lemma {:induction false} SeenGrows(p: seq<Exchange>, q: seq<Exchange>)
    ensures Seen(p) <= Seen(p + q)
    decreases |q|
  {
    if q == [] {
      assert p + q == p;
    } else {
      var pq := p + q;
      assert pq[..|pq| - 1] == p + q[..|q| - 1];
      SeenGrows(p, q[..|q| - 1]);
    }
  }

  /**
   * Duplicates count and the monitor stops only at exactly three entries:
   * once the list has grown past three, no further polls bring it back.
   */
  lemma BootOvershootIsFinal(p: seq<Exchange>, q: seq<Exchange>)
    requires |Seen(p)| > |REQUIRED_MARKERS|
    ensures |Seen(p + q)| != |REQUIRED_MARKERS|
  {
    SeenGrows(p, q);
  }

  /** A poll that shows every marker at once completes the list. */
  lemma AllMarkersInOnePoll(e: Exchange)
    requires e.reply.Ok? && forall x :: x in REQUIRED_MARKERS ==> Occurs(e.reply.value, x)
    ensures |Seen([e])| == |REQUIRED_MARKERS|
  {
    assert [e][..0] == [];
    var m := MarkersIn(e.reply.value);
    MarkersInSpec(e.reply.value);
    assert CPIN_READY in m && CALL_READY in m && SMS_READY in m;
    assert m == REQUIRED_MARKERS;
  }

  /** Two polls that each show the same two markers make the list four long, and then no poll ends the boot. */
  lemma RepeatedMarkersOvershoot(e1: Exchange, e2: Exchange, q: seq<Exchange>)
    requires e1.reply.Ok? && e2.reply.Ok?
    requires |MarkersIn(e1.reply.value)| == 2 && |MarkersIn(e2.reply.value)| == 2
    ensures |Seen([e1, e2] + q)| != |REQUIRED_MARKERS|
  {
    assert [e1, e2][..1] == [e1] && [e1][..0] == [];
    BootOvershootIsFinal([e1, e2], q);
  }

  // ---------------------------------------------------- HTTP status poll

  const HTTP_STATUS_CMD: string := "http_session_status"
  const GET_FINISHED: string := "+HTTPSTATUS: GET,0,0,0"
  const COUNTS_BEFORE_FINISHED: nat := 50

  /** `finished_counts` after the polls of `t`: one per reply that reports the GET session over. */
  function FinishedCount(t: seq<Exchange>): nat {
    if t == [] then 0
    else
      var e := t[|t| - 1];
      FinishedCount(t[..|t| - 1]) + (if e.reply.Ok? && Find(e.reply.value, GET_FINISHED) != -1 then 1 else 0)
  }

  /**
   * The count is cumulative: polls in between that do not report the
   * session over never reset it, so the count of any run is the sum of the
   * counts of its parts.
   */
  lemma {:induction false} FinishedCountAdds(p: seq<Exchange>, q: seq<Exchange>)
    ensures FinishedCount(p + q) == FinishedCount(p) + FinishedCount(q)
    decreases |q|
  {
    if q == [] {
      assert p + q == p;
    } else {
      var pq := p + q;
      assert pq[..|pq| - 1] == p + q[..|q| - 1];
      assert pq[|pq| - 1] == q[|q| - 1];
      FinishedCountAdds(p, q[..|q| - 1]);
    }
  }

  /** Each poll adds at most one. */
  lemma {:induction false} FinishedCountBound(t: seq<Exchange>)
    ensures FinishedCount(t) <= |t|
    decreases |t|
  {
    if t != [] {
      FinishedCountBound(t[..|t| - 1]);
    }
  }

  // ----------------------------------------------------- HTTPS flush loop

  /** The command the flush loop repeats: `AT`. */
  const FLUSH_CMD: string := "test_at"

  /** The text the flush loop appends: the replies of `t`, in order. */
  function FlushText(t: seq<Exchange>): string {
    if t == [] then []
    else FlushText(t[..|t| - 1]) + (if t[|t| - 1].reply.Ok? then t[|t| - 1].reply.value else [])
  }

  // ------------------------------------------------------------ SMS throttle

  /**
   * `_sms_time_blocked`: a send is refused until the clock has passed the
   * reference time `last` by more than the throttle interval.
   */
  predicate SmsBlocked(now: int, last: int) {
    !(now > last + SMS_THROTTLE)
  }

  /**
   * The block covers the throttle interval after `last`, its end included,
   * and nothing later; once lifted it stays lifted while `last` stays put.
   */
  lemma SmsThrottleWindow(last: int, now: int, later: int)
    ensures SmsBlocked(last + SMS_THROTTLE, last) && !SmsBlocked(last + SMS_THROTTLE + 1, last)
    ensures !SmsBlocked(now, last) && now <= later ==> !SmsBlocked(later, last)
  {
  }

  // ------------------------------------------------------------------- runs

  ghost predicate PlanRun(plan: seq<Step>, t: seq<Exchange>, r: Outcome) {
    Ran(plan, t) && r == Verdict(plan, t)
  }

  /**
   * One more call after a passing prefix of a plan: it runs one more step,
   * and when it fails or is the last step it completes the whole plan.
   */
  lemma PlanSnoc(plan: seq<Step>, k: nat, t: seq<Exchange>, e: Exchange)
    requires k < |plan| && PlanRun(plan[..k], t, Pass) && Sent(e, plan[k])
    ensures |t| == k
    ensures PlanRun(plan[..k + 1], t + [e], Status(StepResult(plan[k], e.reply)))
    ensures StepResult(plan[k], e.reply).Err? || k + 1 == |plan| ==> PlanRun(plan, t + [e], Status(StepResult(plan[k], e.reply)))
  {
    RanSpec(plan[..k], t);
    assert plan[..k] + [plan[k]] == plan[..k + 1];
    RanSnoc(plan[..k], t, plan[k], e);
    if k + 1 == |plan| {
      assert plan[..k + 1] == plan;
    } else if StepResult(plan[k], e.reply).Err? {
      RanStopsEarly(plan[..k + 1], plan[k + 1..], t + [e]);
      assert plan[..k + 1] + plan[k + 1..] == plan;
    }
  }

  /** `at_check_ready`: with no serial handle it raises without a call; otherwise one checked `AT`. */
  ghost predicate AtCheckRun(t: seq<Exchange>, r: Outcome) {
    if t == [] then r == Fail(ATCheckError) else PlanRun([AT_CHECK], t, r)
  }

  /** With a serial handle, the liveness check is one `AT` call, and it passes exactly when that call passes. */
  lemma AtCheckLinked(t: seq<Exchange>, r: Outcome)
    requires AtCheckRun(t, r) && t != []
    ensures |t| == 1 && Sent(t[0], AT_CHECK)
    ensures r == Pass <==> Passes(AT_CHECK, t[0].reply)
  {
    RanSpec([AT_CHECK], t);
  }

  /**
   * `enable_gprs`: the attach query; only when its reply decoded and was
   * refused does the attach command follow, and the attach flag of that
   * reply decides.
   */
  ghost predicate EnableGprsRun(t: seq<Exchange>, r: Outcome) {
    && |t| >= 1
    && Sent(t[0], GPRS_STATUS)
    && if Passes(GPRS_STATUS, t[0].reply) then |t| == 1 && r == Pass
       else if t[0].reply.Ok? then PlanRun([GPRS_ATTACH], t[1..], r)
       else |t| == 1 && r == Fail(t[0].reply.error)
  }

  /**
   * `get_ip`: every round sends `AT+CIFSR`, the first at `start` and each
   * other one second after the round before it returned; every round but
   * the last was retried, each within the await window; a last round that
   * would be retried ended past the window.
   */
  ghost predicate GetIpTrace(t: seq<Exchange>, start: int) {
    && |t| >= 1
    && Paced(t, start, IP_RETRY_SLEEP)
    && (forall k :: 0 <= k < |t| ==> t[k].cmd == "get_ip" && t[k].pause == DEFAULT_PAUSE)
    && (forall k :: 0 <= k < |t| - 1 ==> IpRetry(t[k].reply) && t[k].at - start <= IP_MAX_AWAIT)
    && (IpRetry(t[|t| - 1].reply) ==> t[|t| - 1].at - start > IP_MAX_AWAIT)
  }

  /** What `get_ip` returns: the address of its last round, its `GPRSGetIpError`, or the transport's error. */
  function GetIpResult(t: seq<Exchange>): Result<string>
    requires |t| >= 1
  {
    var reply := t[|t| - 1].reply;
    if reply.Err? then Err(reply.error) else IpOf(reply.value)
  }

  /** Rounds of `get_ip` that were all retried, each within the await window, one second apart. */
  ghost predicate IpRounds(t: seq<Exchange>, start: int) {
    && Paced(t, start, IP_RETRY_SLEEP)
    && forall k :: 0 <= k < |t| ==> t[k].cmd == "get_ip" && t[k].pause == DEFAULT_PAUSE && IpRetry(t[k].reply) && t[k].at - start <= IP_MAX_AWAIT
  }

  lemma IpRoundNext(t: seq<Exchange>, e: Exchange, start: int)
    requires IpRounds(t, start) && e.cmd == "get_ip" && e.pause == DEFAULT_PAUSE && IpRetry(e.reply) && e.at - start <= IP_MAX_AWAIT
    requires e.began == RoundStart(t, |t|, start, IP_RETRY_SLEEP)
    ensures IpRounds(t + [e], start)
    ensures RoundStart(t + [e], |t| + 1, start, IP_RETRY_SLEEP) == e.at + IP_RETRY_SLEEP
  {
    PacedSnoc(t, e, start, IP_RETRY_SLEEP);
  }

  /** The round that ends `get_ip`: accepted, failed in transport, or retried past the window. */
  lemma IpRoundLast(t: seq<Exchange>, e: Exchange, start: int)
    requires IpRounds(t, start) && e.cmd == "get_ip" && e.pause == DEFAULT_PAUSE
    requires e.began == RoundStart(t, |t|, start, IP_RETRY_SLEEP)
    requires IpRetry(e.reply) ==> e.at - start > IP_MAX_AWAIT
    ensures GetIpTrace(t + [e], start)
    ensures GetIpResult(t + [e]) == if e.reply.Err? then Err(e.reply.error) else IpOf(e.reply.value)
  {
    PacedSnoc(t, e, start, IP_RETRY_SLEEP);
    assert (t + [e])[|t|] == e;
  }

  /**
   * `init_serial`: a port that cannot be opened raises at once; otherwise
   * liveness checks repeat, the first at `start` and each other a tenth of
   * a second after the one before it returned, any failure swallowed,
   * until one passes or the await window has passed.
   */
  ghost predicate InitSerialRun(port: bool, t: seq<Exchange>, start: int, r: Outcome) {
    if !port then t == [] && r == Fail(SerialOpenError)
    else
      && |t| >= 1
      && Paced(t, start, POLL_SLEEP)
      && (forall k :: 0 <= k < |t| ==> Sent(t[k], AT_CHECK))
      && (forall k :: 0 <= k < |t| - 1 ==> !Passes(AT_CHECK, t[k].reply) && t[k].at + POLL_SLEEP - start <= BOOT_MAX_AWAIT)
      && if Passes(AT_CHECK, t[|t| - 1].reply) then r == Pass
         else r == Fail(SerialInitTimeout) && t[|t| - 1].at + POLL_SLEEP - start > BOOT_MAX_AWAIT
  }

  /** Rounds of `init_serial` that all failed, each followed by a sleep that stayed within the window. */
  ghost predicate InitRounds(t: seq<Exchange>, start: int) {
    && Paced(t, start, POLL_SLEEP)
    && forall k :: 0 <= k < |t| ==>
      && Sent(t[k], AT_CHECK) && !Passes(AT_CHECK, t[k].reply)
      && t[k].at + POLL_SLEEP - start <= BOOT_MAX_AWAIT
  }

  lemma InitRoundNext(t: seq<Exchange>, e: Exchange, start: int)
    requires InitRounds(t, start)
    requires Sent(e, AT_CHECK) && !Passes(AT_CHECK, e.reply) && e.at + POLL_SLEEP - start <= BOOT_MAX_AWAIT
    requires e.began == RoundStart(t, |t|, start, POLL_SLEEP)
    ensures InitRounds(t + [e], start)
  {
    PacedSnoc(t, e, start, POLL_SLEEP);
  }

  /** The round that ends `init_serial`: a check that passed, or a failed one whose sleep ran past the window. */
  lemma InitRoundLast(t: seq<Exchange>, e: Exchange, start: int, r: Outcome)
    requires InitRounds(t, start) && Sent(e, AT_CHECK) && e.began == RoundStart(t, |t|, start, POLL_SLEEP)
    requires if Passes(AT_CHECK, e.reply) then r == Pass
             else r == Fail(SerialInitTimeout) && e.at + POLL_SLEEP - start > BOOT_MAX_AWAIT
    ensures InitSerialRun(true, t + [e], start, r)
  {
    PacedSnoc(t, e, start, POLL_SLEEP);
    assert (t + [e])[|t|] == e;
  }

  /** The clock at the start of boot poll `k`. */
  function BootRound(t: seq<Exchange>, k: nat, start: int): int
    requires k <= |t|
  {
    RoundStart(t, k, start, POLL_SLEEP)
  }

  /** The clock when the boot monitor returns: after the last sleep, or at the poll that raised. */
  function BootEnd(t: seq<Exchange>, start: int): int {
    if t != [] && t[|t| - 1].reply.Err? then t[|t| - 1].at else BootRound(t, |t|, start)
  }

  /**
   * `at_monitor_module_boot`: every round polls with `AT`, the first at
   * `start` and each other a tenth of a second after the one before it
   * returned, while the list of seen messages is not exactly three long and
   * the window is open; it passes when the list reaches exactly three.
   */
  ghost predicate BootRun(t: seq<Exchange>, start: int, r: Outcome) {
    && Paced(t, start, POLL_SLEEP)
    && (forall k :: 0 <= k < |t| ==>
          && t[k].cmd == "test_at" && t[k].pause == DEFAULT_PAUSE
          && |Seen(t[..k])| != |REQUIRED_MARKERS| && t[k].began - start <= BOOT_MAX_AWAIT)
    && (forall k :: 0 <= k < |t| - 1 ==> t[k].reply.Ok?)
    && if t != [] && t[|t| - 1].reply.Err? then r == Fail(t[|t| - 1].reply.error)
       else if |Seen(t)| == |REQUIRED_MARKERS| then r == Pass
       else r == Fail(GPRSError) && BootRound(t, |t|, start) - start > BOOT_MAX_AWAIT
  }

  /** Boot polls that all decoded, each made while the list was not three long and the window open. */
  ghost predicate BootRounds(t: seq<Exchange>, start: int) {
    && Paced(t, start, POLL_SLEEP)
    && forall k :: 0 <= k < |t| ==>
         && t[k].cmd == "test_at" && t[k].pause == DEFAULT_PAUSE && t[k].reply.Ok?
         && |Seen(t[..k])| != |REQUIRED_MARKERS| && t[k].began - start <= BOOT_MAX_AWAIT
  }

  /** One more boot poll that decoded: its markers are appended and the next round starts after the sleep. */
  lemma BootRoundNext(t: seq<Exchange>, e: Exchange, start: int)
    requires BootRounds(t, start) && e.cmd == "test_at" && e.pause == DEFAULT_PAUSE && e.reply.Ok?
    requires e.began == BootRound(t, |t|, start)
    requires |Seen(t)| != |REQUIRED_MARKERS| && BootRound(t, |t|, start) - start <= BOOT_MAX_AWAIT
    ensures BootRounds(t + [e], start)
    ensures Seen(t + [e]) == Seen(t) + MarkersIn(e.reply.value)
    ensures BootRound(t + [e], |t| + 1, start) == e.at + POLL_SLEEP
  {
    var u := t + [e];
    PacedSnoc(t, e, start, POLL_SLEEP);
    assert u[..|t|] == t;
    forall k | 0 <= k < |u|
      ensures u[k].cmd == "test_at" && u[k].pause == DEFAULT_PAUSE && u[k].reply.Ok?
      ensures |Seen(u[..k])| != |REQUIRED_MARKERS| && u[k].began - start <= BOOT_MAX_AWAIT
    {
      if k < |t| {
        assert u[..k] == t[..k];
      }
    }
  }

  /** A boot poll that raised ends the monitor with its exception. */
  lemma BootRoundRaised(t: seq<Exchange>, e: Exchange, start: int)
    requires BootRounds(t, start) && e.cmd == "test_at" && e.pause == DEFAULT_PAUSE && e.reply.Err?
    requires e.began == BootRound(t, |t|, start)
    requires |Seen(t)| != |REQUIRED_MARKERS| && BootRound(t, |t|, start) - start <= BOOT_MAX_AWAIT
    ensures BootRun(t + [e], start, Fail(e.reply.error)) && BootEnd(t + [e], start) == e.at
  {
    var u := t + [e];
    PacedSnoc(t, e, start, POLL_SLEEP);
    assert u[..|t|] == t;
    forall k | 0 <= k < |u|
      ensures u[k].cmd == "test_at" && u[k].pause == DEFAULT_PAUSE
      ensures |Seen(u[..k])| != |REQUIRED_MARKERS| && u[k].began - start <= BOOT_MAX_AWAIT
    {
      if k < |t| {
        assert u[..k] == t[..k];
      }
    }
  }

  /** Polls that all decoded end the monitor when the list is three long, or when the window has passed. */
  lemma BootRoundsEnd(t: seq<Exchange>, start: int, r: Outcome)
    requires BootRounds(t, start)
    requires if |Seen(t)| == |REQUIRED_MARKERS| then r == Pass
             else r == Fail(GPRSError) && BootRound(t, |t|, start) - start > BOOT_MAX_AWAIT
    ensures BootRun(t, start, r) && BootEnd(t, start) == BootRound(t, |t|, start)
  {
    forall k | 0 <= k < |t| - 1
      ensures t[k].reply.Ok?
    {
    }
  }

  /**
   * `_await_get_session_complete`: polls the HTTP status, the first at
   * `start` and each other as soon as the one before it returned, until
   * the cumulative count of finished reports reaches fifty or the request
   * timeout has elapsed; a timeout does not raise.
   */
  ghost predicate AwaitRun(t: seq<Exchange>, start: int, timeout: nat, r: Outcome) {
    && |t| >= 1
    && Paced(t, start, 0)
    && (forall k :: 0 <= k < |t| ==> t[k].cmd == HTTP_STATUS_CMD && t[k].pause == DEFAULT_PAUSE)
    && (forall k :: 0 <= k < |t| - 1 ==>
          t[k].reply.Ok? && FinishedCount(t[..k + 1]) < COUNTS_BEFORE_FINISHED && t[k].at - start < timeout)
    && if t[|t| - 1].reply.Err? then r == Fail(t[|t| - 1].reply.error)
       else r == Pass && (FinishedCount(t) >= COUNTS_BEFORE_FINISHED || t[|t| - 1].at - start >= timeout)
  }

  /** Polls that were all followed by another: each decoded, left the count short of fifty and came before the timeout. */
  ghost predicate AwaitRounds(t: seq<Exchange>, start: int, timeout: nat) {
    Paced(t, start, 0) && AwaitPolls(t, start, timeout)
  }

  /** The judgement of each such poll, apart from when it began. */
  ghost predicate AwaitPolls(t: seq<Exchange>, start: int, timeout: nat) {
    forall k :: 0 <= k < |t| ==>
      t[k].cmd == HTTP_STATUS_CMD && t[k].pause == DEFAULT_PAUSE && t[k].reply.Ok? && FinishedCount(t[..k + 1]) < COUNTS_BEFORE_FINISHED && t[k].at - start < timeout
  }

  /** Earlier polls keep their judgement when one more is appended. */
  lemma AwaitPollsKept(t: seq<Exchange>, e: Exchange, start: int, timeout: nat)
    requires AwaitPolls(t, start, timeout)
    ensures forall k :: 0 <= k < |t| ==> (t + [e])[k] == t[k] && (t + [e])[..k + 1] == t[..k + 1]
  {
    forall k | 0 <= k < |t| ensures (t + [e])[k] == t[k] && (t + [e])[..k + 1] == t[..k + 1] { }
  }

  /** A poll that decoded, left the count short of fifty and came before the timeout is one more such poll. */
  lemma AwaitPollNext(t: seq<Exchange>, e: Exchange, start: int, timeout: nat)
    requires AwaitPolls(t, start, timeout)
    requires e.cmd == HTTP_STATUS_CMD && e.pause == DEFAULT_PAUSE && e.reply.Ok? && FinishedCount(t + [e]) < COUNTS_BEFORE_FINISHED && e.at - start < timeout
    ensures AwaitPolls(t + [e], start, timeout)
  {
    AwaitPollsKept(t, e, start, timeout);
    assert (t + [e])[..|t| + 1] == t + [e];
  }

  /** One more poll adds one to the count exactly when its reply reports the session over. */
  lemma FinishedCountSnoc(t: seq<Exchange>, e: Exchange)
    ensures FinishedCount(t + [e]) == FinishedCount(t) + (if e.reply.Ok? && Find(e.reply.value, GET_FINISHED) != -1 then 1 else 0)
  {
    assert (t + [e])[..|t|] == t;
  }

  lemma AwaitRoundNext(t: seq<Exchange>, e: Exchange, start: int, timeout: nat)
    requires AwaitRounds(t, start, timeout)
    requires e.cmd == HTTP_STATUS_CMD && e.pause == DEFAULT_PAUSE && e.reply.Ok? && FinishedCount(t + [e]) < COUNTS_BEFORE_FINISHED && e.at - start < timeout
    requires e.began == RoundStart(t, |t|, start, 0)
    ensures AwaitRounds(t + [e], start, timeout)
  {
    PacedSnoc(t, e, start, 0);
    AwaitPollNext(t, e, start, timeout);
  }

  /** The poll that ends the loop: a transport error, or a count of fifty, or the timeout. */
  lemma AwaitRoundLast(t: seq<Exchange>, e: Exchange, start: int, timeout: nat, r: Outcome)
    requires AwaitRounds(t, start, timeout) && e.cmd == HTTP_STATUS_CMD && e.pause == DEFAULT_PAUSE
    requires e.began == RoundStart(t, |t|, start, 0)
    requires e.reply.Err? ==> r == Fail(e.reply.error)
    requires e.reply.Ok? ==> r == Pass && (FinishedCount(t + [e]) >= COUNTS_BEFORE_FINISHED || e.at - start >= timeout)
    ensures AwaitRun(t + [e], start, timeout, r)
  {
    PacedSnoc(t, e, start, 0);
    AwaitPollsKept(t, e, start, timeout);
    assert (t + [e])[|t|] == e;
  }

  /**
   * A poll that ends before the timeout has seen the session reported over
   * fifty times, so it made at least fifty polls.
   */
  lemma AwaitNeedsFifty(t: seq<Exchange>, start: int, timeout: nat)
    requires AwaitRun(t, start, timeout, Pass) && t[|t| - 1].at - start < timeout
    ensures FinishedCount(t) >= COUNTS_BEFORE_FINISHED && |t| >= COUNTS_BEFORE_FINISHED
  {
    FinishedCountBound(t);
  }

  /**
   * The HTTPS flush loop: sends `AT` until a reply classifies OK, at most
   * `fuel` times (the driver's loop has no bound).
   */
  ghost predicate FlushRun(fuel: nat, t: seq<Exchange>, r: Outcome) {
    && |t| <= fuel
    && (forall k :: 0 <= k < |t| ==> t[k].cmd == FLUSH_CMD && t[k].pause == DEFAULT_PAUSE)
    && (forall k :: 0 <= k < |t| - 1 ==> t[k].reply.Ok? && !Accepts(AtOk, t[k].reply.value))
    && if t != [] && t[|t| - 1].reply.Err? then r == Fail(t[|t| - 1].reply.error)
       else if t != [] && Accepts(AtOk, t[|t| - 1].reply.value) then r == Pass
       else |t| == fuel && r == Fail(FlushFuelExhausted)
  }

  /** Flush rounds that were all followed by another: each decoded and did not classify OK. */
  ghost predicate FlushRounds(t: seq<Exchange>) {
    forall k :: 0 <= k < |t| ==> t[k].cmd == FLUSH_CMD && t[k].pause == DEFAULT_PAUSE && t[k].reply.Ok? && !Accepts(AtOk, t[k].reply.value)
  }

  /** One more round appends its reply text to what the loop had gathered. */
  lemma FlushTextSnoc(data: string, t: seq<Exchange>, e: Exchange)
    ensures FlushText(t + [e]) == FlushText(t) + (if e.reply.Ok? then e.reply.value else [])
    ensures e.reply.Ok? ==> data + FlushText(t + [e]) == (data + FlushText(t)) + e.reply.value
  {
    assert (t + [e])[..|t|] == t;
  }

  lemma FlushRoundNext(t: seq<Exchange>, e: Exchange)
    requires FlushRounds(t) && e.cmd == FLUSH_CMD && e.pause == DEFAULT_PAUSE && e.reply.Ok? && !Accepts(AtOk, e.reply.value)
    ensures FlushRounds(t + [e])
  {
  }

  /** The round that ends the loop: a transport error or a reply that classifies OK. */
  lemma FlushRoundLast(fuel: nat, t: seq<Exchange>, e: Exchange, r: Outcome)
    requires FlushRounds(t) && |t| < fuel && e.cmd == FLUSH_CMD && e.pause == DEFAULT_PAUSE
    requires e.reply.Err? ==> r == Fail(e.reply.error)
    requires e.reply.Ok? ==> Accepts(AtOk, e.reply.value) && r == Pass
    ensures FlushRun(fuel, t + [e], r)
  {
    assert (t + [e])[|t|] == e;
  }

  /** A flush that passed ended with an `AT` whose reply classified OK. */
  lemma FlushPassEnds(fuel: nat, t: seq<Exchange>)
    requires FlushRun(fuel, t, Pass)
    ensures t != [] && t[|t| - 1].cmd == FLUSH_CMD && t[|t| - 1].pause == DEFAULT_PAUSE && t[|t| - 1].reply.Ok? && Accepts(AtOk, t[|t| - 1].reply.value)
  {
  }

  /** The fuel ran out with no round classifying OK. */
  lemma FlushOutOfFuel(fuel: nat, t: seq<Exchange>)
    requires FlushRounds(t) && |t| == fuel
    ensures FlushRun(fuel, t, Fail(FlushFuelExhausted))
  {
  }

  // ---------------------------------------------------- composite operations

  /**
   * `connected_ok`, cut at its parts: `at_check_ready` made the calls `t1`
   * and ended with `a`; only when it returned normally did the attach query
   * make `t2` and end with `g`; only when that too returned normally did
   * `get_ip` make `t3`.  Each part starts when the one before it returned.
   * `r` is the first exception, or else how `get_ip` ended.
   */
  ghost predicate ConnectedOkParts(t1: seq<Exchange>, t2: seq<Exchange>, t3: seq<Exchange>, start: int,
                                   a: Outcome, g: Outcome, r: Outcome) {
    && AtCheckRun(t1, a) && Paced(t1, start, 0)
    && if a != Pass then t2 == [] && t3 == [] && r == a
       else
         && PlanRun([GPRS_STATUS], t2, g) && Paced(t2, Clock(t1, start), 0)
         && if g != Pass then t3 == [] && r == g
            else GetIpTrace(t3, Clock(t2, Clock(t1, start))) && r == Status(GetIpResult(t3))
  }

  /** `t` is what `connected_ok` sends when started at `start`, and `r` how it ends. */
  ghost predicate ConnectedOkRun(t: seq<Exchange>, start: int, r: Outcome) {
    exists t1, t2, t3, a, g :: t == t1 + t2 + t3 && ConnectedOkParts(t1, t2, t3, start, a, g, r)
  }
  lemma ConnectedOkIntro(t1: seq<Exchange>, t2: seq<Exchange>, t3: seq<Exchange>, start: int, a: Outcome, g: Outcome, r: Outcome)
    requires ConnectedOkParts(t1, t2, t3, start, a, g, r)
    ensures ConnectedOkRun(t1 + t2 + t3, start, r)
  {
  }


  /** After GPRS attach, `connect` sets PDP mode, the provider and the wireless link, each one checked step. */
  function BringUpPlan(provider: string): seq<Step> {
    [PDP_ENABLE, SetProviderStep(provider), WIRELESS_ENABLE]
  }

  /**
   * The middle of `connect`, cut at its parts: GPRS attach (`t1`, ending
   * with `a`), then, only when it returned normally, the three configuration
   * steps (`u`); the first exception is `r`.
   */
  ghost predicate BringUpParts(t1: seq<Exchange>, u: seq<Exchange>, provider: string, a: Outcome, r: Outcome) {
    && EnableGprsRun(t1, a)
    && if a != Pass then u == [] && r == a else PlanRun(BringUpPlan(provider), u, r)
  }

  /** `t` is what the middle of `connect` sends, and `r` how it ends. */
  ghost predicate BringUpRun(t: seq<Exchange>, provider: string, r: Outcome) {
    exists t1, u, a :: t == t1 + u && BringUpParts(t1, u, provider, a, r)
  }

  lemma BringUpIntro(t1: seq<Exchange>, u: seq<Exchange>, provider: string, a: Outcome, r: Outcome)
    requires BringUpParts(t1, u, provider, a, r)
    ensures BringUpRun(t1 + u, provider, r)
  {
  }

  /**
   * `connect`, cut at its parts: the liveness check (`t1`, ending with
   * `a`), GPRS attach through the wireless link (`t2`, `b`), `get_ip`
   * (`t3`) and `connected_ok` (`t4`); each part runs only when every part
   * before it returned normally, and starts when the one before it
   * returned; the first exception is `r`.
   */
  ghost predicate ConnectParts(t1: seq<Exchange>, t2: seq<Exchange>, t3: seq<Exchange>, t4: seq<Exchange>,
                               start: int, provider: string, a: Outcome, b: Outcome, r: Outcome) {
    && AtCheckRun(t1, a) && Paced(t1, start, 0)
    && if a != Pass then t2 == [] && t3 == [] && t4 == [] && r == a
       else
         && BringUpRun(t2, provider, b) && Paced(t2, Clock(t1, start), 0)
         && if b != Pass then t3 == [] && t4 == [] && r == b
            else
              && GetIpTrace(t3, Clock(t2, Clock(t1, start)))
              && if GetIpResult(t3).Err? then t4 == [] && r == Status(GetIpResult(t3))
                 else ConnectedOkRun(t4, Clock(t3, Clock(t2, Clock(t1, start))), r)
  }

  /** `t` is what `connect` sends when started at `start`, and `r` how it ends. */
  ghost predicate ConnectRun(t: seq<Exchange>, start: int, provider: string, r: Outcome) {
    exists t1, t2, t3, t4, a, b :: t == t1 + t2 + t3 + t4 && ConnectParts(t1, t2, t3, t4, start, provider, a, b, r)
  }
  lemma ConnectIntro(t1: seq<Exchange>, t2: seq<Exchange>, t3: seq<Exchange>, t4: seq<Exchange>, start: int, provider: string,
                     a: Outcome, b: Outcome, r: Outcome)
    requires ConnectParts(t1, t2, t3, t4, start, provider, a, b, r)
    ensures ConnectRun(t1 + t2 + t3 + t4, start, provider, r)
  {
  }


  /**
   * `reset` once the module has been pulsed, cut at its parts: opening and
   * checking the port (`t1`, ending with `a`), watching the boot (`t2`,
   * `b`), and, when asked, `connect` (`t3`); each runs only when the parts
   * before it returned normally.  The clock stops at `finish`: after the
   * last sleep of the part that ended the run, or at its last reply.
   */
  ghost predicate ResetParts(t1: seq<Exchange>, t2: seq<Exchange>, t3: seq<Exchange>, start: int, finish: int,
                             port: bool, provider: string, enableGprs: bool, a: Outcome, b: Outcome, r: Outcome) {
    && InitSerialRun(port, t1, start, a)
    && if a != Pass then
         && t2 == [] && t3 == [] && r == a
         && finish == Clock(t1, start) + (if a == Fail(SerialInitTimeout) then POLL_SLEEP else 0)
       else
         && BootRun(t2, Clock(t1, start), b)
         && if b != Pass || !enableGprs then t3 == [] && r == b && finish == BootEnd(t2, Clock(t1, start))
            else ConnectRun(t3, BootRound(t2, |t2|, Clock(t1, start)), provider, r)
                 && finish == Clock(t3, BootRound(t2, |t2|, Clock(t1, start)))
  }

  /** `t` is what `reset` sends once the module has been pulsed at `start`, `r` how it ends, and `finish` the clock then. */
  ghost predicate ResetRun(t: seq<Exchange>, start: int, finish: int, port: bool, provider: string, enableGprs: bool, r: Outcome) {
    exists t1, t2, t3, a, b :: t == t1 + t2 + t3 && ResetParts(t1, t2, t3, start, finish, port, provider, enableGprs, a, b, r)
  }
  lemma ResetIntro(t1: seq<Exchange>, t2: seq<Exchange>, t3: seq<Exchange>, start: int, finish: int, port: bool, provider: string,
                   enableGprs: bool, a: Outcome, b: Outcome, r: Outcome)
    requires ResetParts(t1, t2, t3, start, finish, port, provider, enableGprs, a, b, r)
    ensures ResetRun(t1 + t2 + t3, start, finish, port, provider, enableGprs, r)
  {
  }

  // --------------------------------------------- what the composites promise

  /**
   * `enable_gprs` writes `AT+CGATT=1` exactly when the reply to
   * `AT+CGATT?` decoded and failed `at_response_ok`; it then passes exactly
   * when the attach flag of the second reply reads `1`.
   */
  lemma EnableGprsOrder(t: seq<Exchange>, r: Outcome)
    requires EnableGprsRun(t, r)
    ensures 1 <= |t| <= 2 && t[0].cmd == GPRS_STATUS.cmd
    ensures |t| == 2 <==> t[0].reply.Ok? && !Accepts(AtOk, t[0].reply.value)
    ensures |t| == 1 ==> (r == Pass <==> t[0].reply.Ok?)
    ensures |t| == 2 ==> t[1].cmd == GPRS_ATTACH.cmd && (r == Pass <==> t[1].reply.Ok? && GprsEnableOk(t[1].reply.value) == Ok(true))
  {
    if |t| >= 2 || (t[0].reply.Ok? && !Accepts(AtOk, t[0].reply.value)) {
      RanSpec([GPRS_ATTACH], t[1..]);
      assert t[1] == t[1..][0];
    }
  }

  /** A round of `get_ip` that is not retried either raised in transport or carried an address. */
  lemma IpRoundOutcome(reply: Result<string>)
    requires !IpRetry(reply)
    ensures reply.Err? || (IpOf(reply.value).Ok? && IsDottedQuad(IpOf(reply.value).value))
  {
  }

  /**
   * Short of a transport error, `get_ip` fails only with `GPRSGetIpError`
   * and only once a retried round ended past the await window, and it returns an address only from its last
   * round.
   */
  lemma GetIpEnds(t: seq<Exchange>, start: int)
    requires GetIpTrace(t, start)
    ensures t[|t| - 1].reply.Ok? && GetIpResult(t).Err? ==> GetIpResult(t) == Err(GetIpError) && t[|t| - 1].at - start > IP_MAX_AWAIT
    ensures GetIpResult(t).Ok? ==> t[|t| - 1].reply.Ok? && IsDottedQuad(GetIpResult(t).value)
    ensures GetIpResult(t).Ok? ==> forall k :: 0 <= k < |t| - 1 ==> IpRetry(t[k].reply)
  {
  }

  /** A `get_ip` round that read one `ERROR` reply at the first try and took half a second. */
  predicate ErrorRead(e: Exchange) {
    e.tries == 1 && e.reply == Ok(ERROR_TOKEN) && e.at == e.began + DEFAULT_PAUSE
  }

  /**
   * `get_ip` rounds each of which, among the first eight, read an `ERROR`
   * reply at the first try once the rounds before it had read one each:
   * round `k` begins at `start + 1500 k`.
   */
  lemma {:induction false} ErrorRound(t: seq<Exchange>, start: int, k: nat)
    requires forall j :: 0 <= j < |t| && j < 8 && Tries(t[..j]) == j ==> ErrorRead(t[j])
    requires Paced(t, start, IP_RETRY_SLEEP)
    requires k < |t| && k < 8
    ensures Tries(t[..k + 1]) == k + 1 && ErrorRead(t[k]) && t[k].began == start + 1500 * k
    decreases k
  {
    if k > 0 {
      ErrorRound(t, start, k - 1);
    }
    assert Tries(t[..k]) == k;
    assert t[k].began == RoundStart(t, k, start, IP_RETRY_SLEEP);
    assert t[..k + 1] == t[..k] + [t[k]];
    WritesSnoc(t[..k], t[k]);
  }

  /**
   * Over replies that all read `ERROR`, made after the calls `t0`,
   * `get_ip` makes exactly eight rounds, a second apart, and raises
   * `GPRSGetIpError` when the eighth returns eleven seconds after it
   * started: each round is retried while the window of ten seconds is open.
   */
  lemma GetIpOnErrors(t0: seq<Exchange>, t: seq<Exchange>, replies: seq<Reply>, start: int)
    requires forall j :: 0 <= j < |t0 + t| ==> AnsweredAt(t0 + t, replies, j)
    requires Live(t, true) && GetIpTrace(t, start)
    requires forall i :: 0 <= i < 8 ==> ReplyAt(Drop(replies, Tries(t0)), i) == Decoded(ERROR_TOKEN)
    ensures |t| == 8 && GetIpResult(t) == Err(GetIpError) && Clock(t, start) == start + 11000
    ensures forall k :: 0 <= k < |t| ==> t[k].began == start + 1500 * k
  {
    var script := Drop(replies, Tries(t0));
    forall j | 0 <= j < |t| && j < 8 && Tries(t[..j]) == j ensures ErrorRead(t[j]) {
      assert AnsweredAt(t0 + t, replies, |t0| + j) && Wrote(t[j]);
      AnsweredAfter(t0, t, replies, j);
      ReplyAtDrop(script, j, 0);
      QuickAnswer(t[j], Drop(script, j));
    }
    assert Find(ERROR_TOKEN, ERROR_TOKEN) == 0;
    var k := if |t| < 8 then |t| - 1 else 7;
    ErrorRound(t, start, k);
    assert IpRetry(t[k].reply);
    forall k | 0 <= k < |t| ensures t[k].began == start + 1500 * k {
      ErrorRound(t, start, k);
    }
  }

  /**
   * A `connected_ok` that passes made the liveness check and the attach
   * query, both accepted, and ended with a `get_ip` round that carried an
   * address, which is then the one held.
   */
  lemma ConnectedOkPasses(t: seq<Exchange>, start: int, x: Option<string>)
    requires ConnectedOkRun(t, start, Pass)
    ensures |t| >= 3 && t[0].cmd == AT_CHECK.cmd && Passes(AT_CHECK, t[0].reply)
    ensures t[1].cmd == GPRS_STATUS.cmd && Passes(GPRS_STATUS, t[1].reply)
    ensures t[|t| - 1].cmd == "get_ip" && t[|t| - 1].reply.Ok? && IpOf(t[|t| - 1].reply.value).Ok?
    ensures StoredIp(t, x) == Some(IpOf(t[|t| - 1].reply.value).value)
  {
    var t1, t2, t3, a, g :| t == t1 + t2 + t3 && ConnectedOkParts(t1, t2, t3, start, a, g, Pass);
    RanSpec([AT_CHECK], t1);
    RanSpec([GPRS_STATUS], t2);
    assert t[0] == t1[0] && t[1] == t2[0] && t[|t| - 1] == t3[|t3| - 1];
    StoredLast(t, x);
  }

  /** The middle of `connect` opens with the attach query. */
  lemma BringUpStarts(t: seq<Exchange>, provider: string, r: Outcome)
    requires BringUpRun(t, provider, r)
    ensures |t| >= 1 && t[0].cmd == GPRS_STATUS.cmd
  {
    var t1, u, a :| t == t1 + u && BringUpParts(t1, u, provider, a, r);
    assert t[0] == t1[0];
  }

  /**
   * A `connect` that passes opened with an accepted liveness check and
   * the attach query, and ended with the `get_ip` round of its closing
   * `connected_ok`, which carried an address, the one then held.
   */
  lemma ConnectPasses(t: seq<Exchange>, start: int, provider: string, x: Option<string>)
    requires ConnectRun(t, start, provider, Pass)
    ensures |t| >= 2 && t[0].cmd == AT_CHECK.cmd && Passes(AT_CHECK, t[0].reply) && t[1].cmd == GPRS_STATUS.cmd
    ensures t[|t| - 1].cmd == "get_ip" && t[|t| - 1].reply.Ok? && IpOf(t[|t| - 1].reply.value).Ok?
    ensures StoredIp(t, x) == Some(IpOf(t[|t| - 1].reply.value).value)
  {
    var t1, t2, t3, t4, a, b :| t == t1 + t2 + t3 + t4 && ConnectParts(t1, t2, t3, t4, start, provider, a, b, Pass);
    assert a == Pass && b == Pass && GetIpResult(t3).Ok?;
    RanSpec([AT_CHECK], t1);
    BringUpStarts(t2, provider, b);
    ConnectedOkPasses(t4, Clock(t3, Clock(t2, Clock(t1, start))), x);
    FourParts(t1, t2, t3, t4);
    StoredLast(t, x);
  }

  /** Where the ends of a run cut in four sit in the whole, when its first part is one exchange. */
  lemma FourParts(a: seq<Exchange>, b: seq<Exchange>, c: seq<Exchange>, d: seq<Exchange>)
    requires |a| == 1 && b != [] && d != []
    ensures var t := a + b + c + d; t[0] == a[0] && t[1] == b[0] && t[|t| - 1] == d[|d| - 1]
  {
  }

  /** Opening the port and watching the boot send nothing but `AT`. */
  lemma InitAndBootSendAt(t1: seq<Exchange>, t2: seq<Exchange>, start: int, port: bool, a: Outcome, b: Outcome)
    requires InitSerialRun(port, t1, start, a) && BootRun(t2, Clock(t1, start), b)
    ensures forall k :: 0 <= k < |t1 + t2| ==> (t1 + t2)[k].cmd == AT_CHECK.cmd
  {
    forall k | 0 <= k < |t1 + t2| ensures (t1 + t2)[k].cmd == AT_CHECK.cmd {
      if k < |t1| {
        assert port && (t1 + t2)[k] == t1[k] && Sent(t1[k], AT_CHECK);
      } else {
        assert (t1 + t2)[k] == t2[k - |t1|];
      }
    }
  }

  /**
   * `reset` without `enable_gprs` sends nothing but `AT`, and so keeps the
   * held address; with it, a reset that passes ended with the `get_ip`
   * round of `connect`, which carried an address, the one then held.
   */
  lemma ResetSends(t: seq<Exchange>, start: int, finish: int, port: bool, provider: string, enableGprs: bool, r: Outcome,
                   x: Option<string>)
    requires ResetRun(t, start, finish, port, provider, enableGprs, r)
    ensures !enableGprs ==> (forall k :: 0 <= k < |t| ==> t[k].cmd == AT_CHECK.cmd) && StoredIp(t, x) == x
    ensures enableGprs && r == Pass ==>
      |t| >= 1 && t[|t| - 1].cmd == "get_ip" && t[|t| - 1].reply.Ok? && IpOf(t[|t| - 1].reply.value).Ok?
      && StoredIp(t, x) == Some(IpOf(t[|t| - 1].reply.value).value)
  {
    var t1, t2, t3, a, b :| t == t1 + t2 + t3 && ResetParts(t1, t2, t3, start, finish, port, provider, enableGprs, a, b, r);
    if a != Pass {
      assert t == t1;
    } else {
      InitAndBootSendAt(t1, t2, start, port, a, b);
      if !enableGprs || b != Pass {
        assert t == t1 + t2;
      } else if r == Pass {
        ConnectPasses(t3, BootRound(t2, |t2|, Clock(t1, start)), provider, x);
        assert t[|t| - 1] == t3[|t3| - 1];
        StoredLast(t, x);
      }
    }
    if !enableGprs {
      AtOnlyKeepsIp(t, x);
    }
  }

  // ------------------------------------------------------- the stored address

  /** A `get_ip` round whose reply carried an address: the only call that stores `self.ip`. */
  predicate StoresIp(e: Exchange) {
    e.cmd == "get_ip" && e.reply.Ok? && IpOf(e.reply.value).Ok?
  }

  /**
   * The address held after the calls `t` when `ip0` was held before: that
   * of the last `get_ip` round that carried one, or `ip0` when none did.
   */
  function StoredIp(t: seq<Exchange>, ip0: Option<string>): Option<string>
    decreases |t|
  {
    if t == [] then ip0
    else if StoresIp(t[|t| - 1]) then Some(IpOf(t[|t| - 1].reply.value).value)
    else StoredIp(t[..|t| - 1], ip0)
  }

  /** Calls that end with a round carrying an address leave that address held. */
  lemma StoredLast(t: seq<Exchange>, x: Option<string>)
    requires |t| >= 1 && t[|t| - 1].cmd == "get_ip" && t[|t| - 1].reply.Ok? && IpOf(t[|t| - 1].reply.value).Ok?
    ensures StoredIp(t, x) == Some(IpOf(t[|t| - 1].reply.value).value)
  {
    assert StoresIp(t[|t| - 1]);
  }

  /** Calls none of which stores an address leave the held one as it was. */
  lemma {:induction false} StoredIpUntouched(t: seq<Exchange>, x: Option<string>)
    requires forall k :: 0 <= k < |t| ==> !StoresIp(t[k])
    ensures StoredIp(t, x) == x
    decreases |t|
  {
    if t != [] {
      StoredIpUntouched(t[..|t| - 1], x);
    }
  }

  /** The address held after two runs is the second's, started from the first's. */
  lemma {:induction false} StoredIpConcat(a: seq<Exchange>, b: seq<Exchange>, x: Option<string>)
    ensures StoredIp(a + b, x) == StoredIp(b, StoredIp(a, x))
    decreases |b|
  {
    if b == [] {
      assert a + b == a;
    } else {
      assert (a + b)[|a + b| - 1] == b[|b| - 1];
      assert (a + b)[..|a + b| - 1] == a + b[..|b| - 1];
      StoredIpConcat(a, b[..|b| - 1], x);
    }
  }

  /** None of the calls `t` is a `get_ip` round. */
  predicate NoIpQuery(t: seq<Exchange>) {
    forall k :: 0 <= k < |t| ==> t[k].cmd != "get_ip"
  }

  /** Calls that send nothing but `AT` leave the held address as it was. */
  lemma AtOnlyKeepsIp(t: seq<Exchange>, x: Option<string>)
    requires forall k :: 0 <= k < |t| ==> t[k].cmd == AT_CHECK.cmd
    ensures StoredIp(t, x) == x
  {
    StoredIpUntouched(t, x);
  }

  /** Calls that make no `get_ip` round before a run leave the address that run stores. */
  lemma StoredIpSkips(a: seq<Exchange>, b: seq<Exchange>, x: Option<string>)
    requires NoIpQuery(a)
    ensures StoredIp(a, x) == x
    ensures StoredIp(a + b, x) == StoredIp(b, x)
  {
    StoredIpUntouched(a, x);
    StoredIpConcat(a, b, x);
  }

  /** A run of a plan none of whose steps is `get_ip` makes no `get_ip` round. */
  lemma PlanNoIpQuery(plan: seq<Step>, t: seq<Exchange>)
    requires Ran(plan, t) && forall i :: 0 <= i < |plan| ==> plan[i].cmd != "get_ip"
    ensures NoIpQuery(t)
  {
    RanSpec(plan, t);
  }

  /**
   * `get_ip` stores the address it returns, and leaves the held one as it
   * was when it raises: every round before the last was retried.
   */
  lemma GetIpStores(t: seq<Exchange>, start: int, x: Option<string>)
    requires GetIpTrace(t, start)
    ensures StoredIp(t, x) == if GetIpResult(t).Ok? then Some(GetIpResult(t).value) else x
  {
    var n := |t| - 1;
    forall k | 0 <= k < |t[..n]| ensures !StoresIp(t[..n][k]) {
      assert t[..n][k] == t[k] && IpRetry(t[k].reply);
    }
    StoredIpUntouched(t[..n], x);
    assert StoresIp(t[n]) <==> GetIpResult(t).Ok?;
  }

  /** The liveness check makes no `get_ip` round. */
  lemma AtCheckNoIpQuery(t: seq<Exchange>, r: Outcome)
    requires AtCheckRun(t, r)
    ensures NoIpQuery(t)
  {
    if t != [] {
      PlanNoIpQuery([AT_CHECK], t);
    }
  }

  /** The attach query of `connected_ok` makes no `get_ip` round. */
  lemma GprsStatusNoIpQuery(t: seq<Exchange>, r: Outcome)
    requires PlanRun([GPRS_STATUS], t, r)
    ensures NoIpQuery(t)
  {
    PlanNoIpQuery([GPRS_STATUS], t);
  }

  /** The liveness check and then, when it ran, the attach query make no `get_ip` round. */
  lemma ChecksNoIpQuery(t1: seq<Exchange>, t2: seq<Exchange>, a: Outcome, g: Outcome)
    requires AtCheckRun(t1, a) && (t2 == [] || PlanRun([GPRS_STATUS], t2, g))
    ensures NoIpQuery(t1 + t2)
  {
    AtCheckNoIpQuery(t1, a);
    if t2 != [] {
      GprsStatusNoIpQuery(t2, g);
    }
    ConcatNoIpQuery(t1, t2);
  }

  /** The liveness check and the attach query leave the held address as it was. */
  lemma ChecksKeepIp(t1: seq<Exchange>, t2: seq<Exchange>, a: Outcome, g: Outcome, x: Option<string>)
    requires AtCheckRun(t1, a) && (t2 == [] || PlanRun([GPRS_STATUS], t2, g))
    ensures StoredIp(t1 + t2, x) == x
  {
    ChecksNoIpQuery(t1, t2, a, g);
    StoredIpSkips(t1 + t2, [], x);
  }

  /** `enable_gprs` makes no `get_ip` round. */
  lemma EnableGprsNoIpQuery(t: seq<Exchange>, r: Outcome)
    requires EnableGprsRun(t, r)
    ensures NoIpQuery(t)
  {
    if |t| > 1 {
      PlanNoIpQuery([GPRS_ATTACH], t[1..]);
      assert forall k :: 1 <= k < |t| ==> t[k] == t[1..][k - 1];
    }
  }

  /** Two runs that make no `get_ip` round make none together. */
  lemma ConcatNoIpQuery(a: seq<Exchange>, b: seq<Exchange>)
    requires NoIpQuery(a) && NoIpQuery(b)
    ensures NoIpQuery(a + b)
  {
    forall k | 0 <= k < |a + b| ensures (a + b)[k].cmd != "get_ip" {
      if k < |a| {
        assert (a + b)[k] == a[k];
      } else {
        assert (a + b)[k] == b[k - |a|];
      }
    }
  }

  /** No step of the middle of `connect` is `get_ip`: the provider command is an `AT+CSTT=` text. */
  lemma BringUpPlanNoIpQuery(provider: string)
    ensures forall i :: 0 <= i < |BringUpPlan(provider)| ==> BringUpPlan(provider)[i].cmd != "get_ip"
  {
    assert AT_COMMANDS["set_provider"] == "AT+CSTT=";
    assert SetProviderStep(provider).cmd[0] == 'A';
  }

  /** The middle of `connect` makes no `get_ip` round. */
  lemma BringUpNoIpQuery(t: seq<Exchange>, provider: string, r: Outcome)
    requires BringUpRun(t, provider, r)
    ensures NoIpQuery(t)
  {
    var t1, u, a :| t == t1 + u && BringUpParts(t1, u, provider, a, r);
    EnableGprsNoIpQuery(t1, a);
    if a == Pass {
      BringUpPlanNoIpQuery(provider);
      PlanNoIpQuery(BringUpPlan(provider), u);
    }
    ConcatNoIpQuery(t1, u);
  }

  /** The liveness check and the middle of `connect` make no `get_ip` round, and so leave the held address as it was. */
  lemma HeadKeepsIp(t1: seq<Exchange>, t2: seq<Exchange>, provider: string, a: Outcome, b: Outcome, x: Option<string>)
    requires AtCheckRun(t1, a) && BringUpRun(t2, provider, b)
    ensures NoIpQuery(t1 + t2) && StoredIp(t1 + t2, x) == x
  {
    AtCheckNoIpQuery(t1, a);
    BringUpNoIpQuery(t2, provider, b);
    ConcatNoIpQuery(t1, t2);
    StoredIpSkips(t1 + t2, [], x);
  }

  /** Opening the port and watching the boot make no `get_ip` round, and so leave the held address as it was. */
  lemma InitAndBootNoIpQuery(t1: seq<Exchange>, t2: seq<Exchange>, start: int, port: bool, a: Outcome, b: Outcome, x: Option<string>)
    requires InitSerialRun(port, t1, start, a) && (if a == Pass then BootRun(t2, Clock(t1, start), b) else t2 == [])
    ensures NoIpQuery(t1 + t2) && StoredIp(t1 + t2, x) == x
  {
    if a == Pass {
      InitAndBootSendAt(t1, t2, start, port, a, b);
    } else {
      assert t1 + t2 == t1;
      forall k | 0 <= k < |t1| ensures t1[k].cmd != "get_ip" {
        assert Sent(t1[k], AT_CHECK);
      }
    }
    StoredIpSkips(t1 + t2, [], x);
  }
}
