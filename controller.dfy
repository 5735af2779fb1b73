/**
 * The SIM800 controller: the serial link, the command exchange and the
 * operations built on it (liveness check, boot monitor, GPRS attach, PDP
 * context, provider, wireless, IP address, connect, reset).
 *
 * The serial port is abstract.  `replies` holds every reply the module
 * gives, each of which decodes to text or fails to decode; `transcript`
 * records every `do_at_command` call with its frame, what it returned, the
 * clock when it returned and how many times it wrote the frame.  The frames
 * written (`Written`) and the replies still unread (`Script`) follow from
 * it.  `now` is the clock in milliseconds, advanced by every pause and
 * sleep.  Each operation's contract says what its calls were, by a run
 * predicate of `Session`, and how it returned.
 */
module Controller {
  import opened Errors
  import opened PyText
  import opened Catalog
  import opened Classify
  import opened Transport
  import opened Session

  /**
   * The decode-retry loop of `do_at_command` on a port whose unread replies
   * are `script`: read; while the read fails to decode and the window has
   * not passed, write the same frame again, pause, read, and sleep a
   * further pause after a failure.  It returns the reply, how many times
   * the frame was written and the time spent, as `ReadResult`, `Reads` and
   * `ReadTime` say.
   */
  method ReadReply(script: seq<Reply>, pause: nat) returns (r: Result<string>, n: nat, elapsed: nat)
    requires pause > 0
    ensures r == ReadResult(script, pause) && n == Reads(script, pause) && elapsed == ReadTime(script, pause)
  {
    ghost var limit := MaxReads(pause);
    var reply := ReplyAt(script, 0);
    if reply.Decoded? {
      FirstReadDecodes(script, pause);
      return Ok(reply.text), 1, pause;
    }
    var start := pause;
    elapsed := pause;
    n := 1;
    while true
      invariant 1 <= n <= limit
      invariant n + RetryRounds(elapsed - start, 2 * pause, DECODE_MAX_AWAIT) == limit
      invariant elapsed - start == RetryTime(pause, n)
      invariant forall i :: 0 <= i < n ==> ReplyAt(script, i).Undecodable?
      decreases limit - n
    {
      if elapsed - start > DECODE_MAX_AWAIT {
        GivesUp(script, pause, n);
        return Err(GPRSError), n, elapsed;
      }
      elapsed := elapsed + pause;
      reply := ReplyAt(script, n);
      if reply.Decoded? {
        DecodedAfterRetries(script, pause, n + 1);
        return Ok(reply.text), n + 1, elapsed;
      }
      elapsed := elapsed + pause;
      n := n + 1;
    }
  }

  class Sim800 {
    /** The access point name `connect` configures. */
    const provider: string
    /** Whether opening the serial port succeeds. */
    const portAvailable: bool
    /** Whether the GPIO library is present, so that `reset_hardware` pulses the power key. */
    const gpioPresent: bool
    /** Every reply the module gives, in order. */
    const replies: seq<Reply>

    /** Whether a serial handle is held (`ser` is not None). */
    var linked: bool
    /** The address `get_ip` last accepted. */
    var ip: Option<string>
    /** The time the SMS throttle measures from. */
    var lastSmsTime: int
    /** The clock, in milliseconds. */
    var now: int
    /** Power-key pulse trains sent by `reset_hardware`. */
    var pulses: nat
    /** Every `do_at_command` call so far. */
    var transcript: seq<Exchange>

    /** Every frame written to the port, in order. */
    function Written(): seq<string>
      reads this
    {
      Writes(transcript)
    }

    /** The replies not yet read. */
    function Script(): seq<Reply>
      reads this
    {
      Drop(replies, Tries(transcript))
    }

    /** `_sms_time_blocked`: whether the throttle refuses a send now. */
    predicate SmsTimeBlocked()
      reads this
    {
      SmsBlocked(now, lastSmsTime)
    }

    /**
     * Every call recorded so far got the module's answer: the decode-retry
     * outcome of the replies unread when it was made, or `NoLink` when no
     * serial handle was held.
     */
    ghost predicate Consistent()
      reads this
    {
      forall k :: 0 <= k < |transcript| ==> AnsweredAt(transcript, replies, k)
    }

    /**
     * The calls `t` were made, and only they, each with a serial handle
     * exactly when one is held now; every recorded call still got the
     * module's answer; and the clock did not go back.
     */
    twostate predicate Records(t: seq<Exchange>)
      reads this
    {
      && transcript == old(transcript) + t
      && Live(t, linked)
      && Consistent()
      && old(now) <= now
    }

    /**
     * What `Records` says of each call: the `k`-th of the calls `t` got the
     * decode-retry outcome of the replies left after the calls before it,
     * with its own pause, when a serial handle is held, and `NoLink`
     * otherwise.
     */
    twostate lemma RecordedAnswer(t: seq<Exchange>, k: nat)
      requires Records(t) && k < |t|
      ensures t[k].pause > 0
      ensures t[k].reply == if linked then ReadResult(Drop(old(Script()), Tries(t[..k])), t[k].pause) else Err(NoLink)
      ensures t[k].tries == if linked then Reads(Drop(old(Script()), Tries(t[..k])), t[k].pause) else 0
    {
      var n := |old(transcript)|;
      assert AnsweredAt(transcript, replies, n + k);
      assert Wrote(t[k]) <==> linked;
      assert transcript[n + k] == t[k];
      assert transcript[..n + k] == old(transcript) + t[..k];
      TriesConcat(old(transcript), t[..k]);
      DropDrop(replies, Tries(old(transcript)), Tries(t[..k]));
    }

    /** Two runs in a row, both with the serial handle as it stands. */
    lemma Joined(t0: seq<Exchange>, t1: seq<Exchange>, t2: seq<Exchange>)
      requires Live(t1, linked) && Live(t2, linked)
      ensures (t0 + t1) + t2 == t0 + (t1 + t2)
      ensures Live(t1 + t2, linked)
    {
      forall k | 0 <= k < |t1 + t2|
        ensures Wrote((t1 + t2)[k]) <==> linked
      {
        if k >= |t1| {
          assert (t1 + t2)[k] == t2[k - |t1|];
        }
      }
    }

    /** A run followed by one more call, both with the serial handle as it stands. */
    lemma Extended(t0: seq<Exchange>, t: seq<Exchange>, e: Exchange)
      requires Live(t, linked) && (Wrote(e) <==> linked)
      ensures t0 + (t + [e]) == (t0 + t) + [e]
      ensures Live(t + [e], linked)
    {
      assert (t + [e])[|t|] == e;
    }

    /**
     * A controller that has not been booted: no serial handle, no address,
     * the throttle reference at zero, and the clock at `clock`.
     */
    constructor (provider: string, portAvailable: bool, gpioPresent: bool, replies: seq<Reply>, clock: int)
      ensures this.provider == provider && this.portAvailable == portAvailable && this.gpioPresent == gpioPresent
      ensures this.replies == replies
      ensures !linked && ip == None && lastSmsTime == 0 && now == clock && pulses == 0 && transcript == []
      ensures Written() == [] && Script() == replies && Consistent()
    {
      this.provider := provider;
      this.portAvailable := portAvailable;
      this.gpioPresent := gpioPresent;
      this.replies := replies;
      linked := false;
      ip := None;
      lastSmsTime := 0;
      now := clock;
      pulses := 0;
      transcript := [];
    }

    /**
     * `do_at_command`: resolve the command and frame it, write it, pause and
     * read, retrying a reply that fails to decode.  With no serial handle
     * the write raises at once and nothing is written.  The call is recorded
     * with its frame, what it returned, the clock when it returned and how
     * many times it wrote; the replies it read are gone from the script.
     */
    method DoAtCommand(cmd: string, pause: nat) returns (r: Result<string>, ghost e: Exchange)
      requires pause > 0 && Consistent()
      modifies this`now, this`transcript
      ensures r == (if linked then ReadResult(old(Script()), pause) else Err(NoLink))
      ensures now == old(now) + (if linked then ReadTime(old(Script()), pause) else 0)
      ensures linked ==> old(now) + pause <= now
      ensures r.Err? ==> LinkError(r.error)
      ensures e == Exchange(cmd, pause, r, old(now), now, if linked then Reads(old(Script()), pause) else 0)
      ensures transcript == old(transcript) + [e] && (Wrote(e) <==> linked)
      ensures Consistent()
    {
      ghost var t0 := transcript;
      ghost var s0 := Script();
      if !linked {
        r := Err(NoLink);
        transcript := transcript + [Exchange(cmd, pause, r, now, now, 0)];
        e := Exchange(cmd, pause, r, now, now, 0);
      } else {
        var n, elapsed;
        r, n, elapsed := ReadReply(Script(), pause);
        ReadTimeBounds(s0, pause);
        ReadResultSpec(s0, pause);
        transcript := transcript + [Exchange(cmd, pause, r, now, now + elapsed, n)];
        e := Exchange(cmd, pause, r, now, now + elapsed, n);
        now := now + elapsed;
      }
      forall k | 0 <= k < |transcript|
        ensures AnsweredAt(transcript, replies, k)
      {
        if k < |t0| {
          assert AnsweredAt(t0, replies, k);
          assert transcript[k] == t0[k] && transcript[..k] == t0[..k];
        } else {
          assert transcript[k] == e && transcript[..k] == t0;
        }
      }
    }

    /**
     * Step `k` of a fixed command sequence `plan`, after the calls `t`,
     * made since the transcript was `start` and the clock was `begin`, ran
     * the steps before it one straight after the other: the call, made at
     * once, and the step's judgement of its reply.  A step that raises ends
     * the whole plan, and so does the last step.
     */
    method PlanStep(ghost start: seq<Exchange>, ghost begin: int, plan: seq<Step>, k: nat, ghost t: seq<Exchange>)
      returns (r: Result<string>, ghost u: seq<Exchange>)
      requires k < |plan| && plan[k].pause > 0
      requires transcript == start + t && PlanRun(plan[..k], t, Pass)
      requires Live(t, linked) && Consistent()
      requires Paced(t, begin, 0) && now == Clock(t, begin)
      modifies this`now, this`transcript
      ensures transcript == start + u && old(now) <= now
      ensures Live(u, linked) && Consistent()
      ensures |u| == k + 1 && u[..k] == t && Sent(u[k], plan[k])
      ensures Paced(u, begin, 0) && u[k].began == old(now) && u[k].at == now
      ensures now == old(now) + (if linked then ReadTime(Drop(replies, Tries(start + t)), plan[k].pause) else 0)
      ensures r == StepResult(plan[k], u[k].reply) && (u[k].reply.Err? ==> LinkError(u[k].reply.error))
      ensures PlanRun(plan[..k + 1], u, Status(r))
      ensures r.Err? || k + 1 == |plan| ==> PlanRun(plan, u, Status(r))
    {
      ghost var e;
      r, e := DoAtCommand(plan[k].cmd, plan[k].pause);
      Extended(start, t, e);
      PlanSnoc(plan, k, t, e);
      PacedSnoc(t, e, begin, 0);
      u := t + [e];
      assert u[..k] == t && u[k] == e;
      r := StepResult(plan[k], r);
    }

    /** One step run on its own: its one call, made at once, ran exactly that step. */
    method Single(step: Step) returns (r: Result<string>, ghost t: seq<Exchange>)
      requires step.pause > 0
      requires Consistent()
      modifies this`now, this`transcript
      ensures Records(t) && |t| == 1 && Paced(t, old(now), 0) && now == t[0].at
      ensures now == old(now) + (if linked then ReadTime(old(Script()), step.pause) else 0)
      ensures PlanRun([step], t, Status(r)) && r == StepResult(step, t[0].reply)
      ensures t[0].reply.Err? ==> LinkError(t[0].reply.error)
    {
      assert [step][..0] == [] && transcript == transcript + [];
      r, t := PlanStep(transcript, now, [step], 0, []);
    }

    /**
     * `at_check_ready`: with no serial handle it raises
     * `GPRSATCheckError` without writing; otherwise one `AT` that must
     * classify OK.
     */
    method AtCheckReady() returns (r: Outcome, ghost t: seq<Exchange>)
      requires Consistent()
      modifies this`now, this`transcript
      ensures Records(t) && Paced(t, old(now), 0) && |t| == (if linked then 1 else 0)
      ensures AtCheckRun(t, r) && now == Clock(t, old(now))
    {
      if !linked {
        return Fail(ATCheckError), [];
      }
      var res;
      res, t := Single(AT_CHECK);
      r := Status(res);
    }

    /**
     * The liveness check on a held serial handle whose next reply is the
     * module's plain acknowledgement passes: the reply recorded for the
     * call is the one the module sent.
     */
    method AckedCheck() returns (r: Outcome)
      requires Consistent() && linked && Script() != [] && Script()[0] == Decoded("AT\r\r\nOK\r\n")
      modifies this`now, this`transcript
      ensures r == Pass
    {
      ghost var s, n := Script(), |transcript|;
      ghost var t;
      r, t := AtCheckReady();
      assert AnsweredAt(transcript, replies, n);
      assert transcript[n] == t[0] && transcript[..n] == old(transcript);
      assert Answered(t[0], s) && Wrote(t[0]);
      AtCheckLinked(t, r);
      FirstReadDecodes(s, DEFAULT_PAUSE);
      assert ReplyAt(s, 0) == s[0] && t[0].pause == DEFAULT_PAUSE;
      assert t[0].reply == Ok("AT\r\r\nOK\r\n");
      AckAccepted(AtOk, "");
      assert Passes(AT_CHECK, t[0].reply);
    }

    /**
     * `init_serial`: open the port, raising when it cannot be opened; then
     * repeat the liveness check, swallowing every failure and sleeping
     * between rounds, until one passes or the await window has passed.
     */
    method InitSerial() returns (r: Outcome, ghost t: seq<Exchange>)
      requires Consistent()
      modifies this`linked, this`now, this`transcript
      ensures Records(t)
      ensures linked == (portAvailable || old(linked))
      ensures InitSerialRun(portAvailable, t, old(now), r)
      ensures now == Clock(t, old(now)) + (if r == Fail(SerialInitTimeout) then POLL_SLEEP else 0)
    {
      t := [];
      if !portAvailable {
        return Fail(SerialOpenError), t;
      }
      linked := true;
      var start := now;
      while true
        invariant linked && transcript == old(transcript) + t && Live(t, linked) && Consistent()
        invariant start == old(now) <= now && now - start <= BOOT_MAX_AWAIT
        invariant InitRounds(t, start)
        invariant now == Clock(t, start - POLL_SLEEP) + POLL_SLEEP
        decreases BOOT_MAX_AWAIT - (now - start)
      {
        var ready, u := AtCheckReady();
        ghost var e := u[0];
        assert u == [e];
        Joined(old(transcript), t, u);
        AtCheckLinked(u, ready);
        if ready == Pass {
          InitRoundLast(t, e, start, Pass);
          return Pass, t + [e];
        }
        now := now + POLL_SLEEP;
        if now - start > BOOT_MAX_AWAIT {
          InitRoundLast(t, e, start, Fail(SerialInitTimeout));
          return Fail(SerialInitTimeout), t + [e];
        }
        InitRoundNext(t, e, start);
        t := t + [e];
      }
    }

    /**
     * `at_monitor_module_boot`: poll with `AT`, appending every required
     * marker each reply shows to the list of seen messages, sleeping after
     * every poll, until the list is exactly three long; raise `GPRSError`
     * once the await window has passed.
     */
    method MonitorBoot() returns (r: Outcome, ghost t: seq<Exchange>)
      requires Consistent()
      modifies this`now, this`transcript
      ensures Records(t)
      ensures BootRun(t, old(now), r)
      ensures now == BootEnd(t, old(now))
    {
      var start := now;
      var seen: seq<string> := [];
      t := [];
      while true
        invariant Records(t)
        invariant start == old(now) && now - start <= BOOT_MAX_AWAIT
        invariant BootRounds(t, start)
        invariant seen == Seen(t) && |seen| != |REQUIRED_MARKERS|
        invariant now == BootRound(t, |t|, start)
        decreases BOOT_MAX_AWAIT - (now - start)
      {
        var res, e := DoAtCommand("test_at", DEFAULT_PAUSE);
        Extended(old(transcript), t, e);
        if res.Err? {
          BootRoundRaised(t, e, start);
          return Fail(res.error), t + [e];
        }
        BootRoundNext(t, e, start);
        t := t + [e];
        seen := seen + MarkersIn(res.value);
        now := now + POLL_SLEEP;
        if |seen| == |REQUIRED_MARKERS| || now - start > BOOT_MAX_AWAIT {
          r := if |seen| == |REQUIRED_MARKERS| then Pass else Fail(GPRSError);
          BootRoundsEnd(t, start, r);
          return;
        }
      }
    }

    /** `gprs_ok`: `AT+CGATT?` must classify OK, else `GPRSGPRSCheckError`. */
    method GprsOk() returns (r: Outcome, ghost t: seq<Exchange>)
      requires Consistent()
      modifies this`now, this`transcript
      ensures Records(t) && Paced(t, old(now), 0) && |t| == 1 && now == Clock(t, old(now))
      ensures PlanRun([GPRS_STATUS], t, r)
    {
      var res;
      res, t := Single(GPRS_STATUS);
      r := Status(res);
    }

    /**
     * `enable_gprs`: the attach query; only the query's own
     * `GPRSGPRSCheckError` is caught, and then the attach command is sent
     * and its attach flag must read 1.
     */
    method EnableGprs() returns (r: Outcome, ghost t: seq<Exchange>)
      requires Consistent()
      modifies this`now, this`transcript
      ensures Records(t) && Paced(t, old(now), 0) && now == Clock(t, old(now))
      ensures EnableGprsRun(t, r)
    {
      var query;
      query, t := Single(GPRS_STATUS);
      if query.Ok? {
        return Pass, t;
      }
      if query.error != GPRSCheckError {
        return Fail(query.error), t;
      }
      var attach, u := Single(GPRS_ATTACH);
      r := Status(attach);
      Joined(old(transcript), t, u);
      assert u == [u[0]] && (t + u)[1..] == u;
      t := t + u;
    }

    /** `disable_gprs`: the detach command's attach flag must read 0, else `GPRSError`. */
    method DisableGprs() returns (r: Outcome, ghost t: seq<Exchange>)
      requires Consistent()
      modifies this`now, this`transcript
      ensures Records(t) && Paced(t, old(now), 0) && |t| == 1 && now == Clock(t, old(now))
      ensures PlanRun([GPRS_DETACH], t, r)
    {
      var res;
      res, t := Single(GPRS_DETACH);
      r := Status(res);
    }

    /** `disable_pdp`: `AT+CIPSHUT`, raising `GPRSError` when the reply does classify as `SHUT OK`. */
    method DisablePdp() returns (r: Outcome, ghost t: seq<Exchange>)
      requires Consistent()
      modifies this`now, this`transcript
      ensures Records(t) && Paced(t, old(now), 0) && |t| == 1 && now == Clock(t, old(now))
      ensures PlanRun([PDP_CLOSE], t, r)
    {
      var res;
      res, t := Single(PDP_CLOSE);
      r := Status(res);
    }

    /** `enable_pdp`: `AT+CIPMODE=0` with a two-second pause must classify OK, else `GPRSSetProviderError`. */
    method EnablePdp() returns (r: Outcome, ghost t: seq<Exchange>)
      requires Consistent()
      modifies this`now, this`transcript
      ensures Records(t) && Paced(t, old(now), 0) && |t| == 1 && now == Clock(t, old(now))
      ensures PlanRun([PDP_ENABLE], t, r)
    {
      var res;
      res, t := Single(PDP_ENABLE);
      r := Status(res);
    }

    /** `set_provider`: `AT+CSTT=` followed by the provider text must classify OK, else `GPRSSetProviderError`. */
    method SetProvider(name: string) returns (r: Outcome, ghost t: seq<Exchange>)
      requires Consistent()
      modifies this`now, this`transcript
      ensures Records(t) && Paced(t, old(now), 0) && |t| == 1 && now == Clock(t, old(now))
      ensures PlanRun([SetProviderStep(name)], t, r)
    {
      var res;
      res, t := Single(SetProviderStep(name));
      r := Status(res);
    }

    /** `enable_wireless`: `AT+CIICR` with a five-second pause must not show `ERROR`, else `GPRSSetProviderError`. */
    method EnableWireless() returns (r: Outcome, ghost t: seq<Exchange>)
      requires Consistent()
      modifies this`now, this`transcript
      ensures Records(t) && Paced(t, old(now), 0) && |t| == 1 && now == Clock(t, old(now))
      ensures PlanRun([WIRELESS_ENABLE], t, r)
    {
      var res;
      res, t := Single(WIRELESS_ENABLE);
      r := Status(res);
    }

    /** `get_provider`: `AT+CSTT?` must classify OK; the provider is read out of the reply. */
    method GetProvider() returns (r: Result<string>, ghost t: seq<Exchange>)
      requires Consistent()
      modifies this`now, this`transcript
      ensures Records(t) && Paced(t, old(now), 0) && |t| == 1
      ensures PlanRun([PROVIDER_QUERY], t, Status(r)) && now == Clock(t, old(now))
      ensures r.Ok? ==> t[0].reply.Ok? && r.value == ParseProvider(t[0].reply.value)
    {
      var res;
      res, t := Single(PROVIDER_QUERY);
      if res.Err? {
        return Err(res.error), t;
      }
      r := Ok(ParseProvider(res.value));
    }

    /** `get_signal_strength`: `AT+CSQ` must classify OK, else `GPRSError`; the quality is read out of the reply. */
    method GetSignalStrength() returns (r: Result<int>, ghost t: seq<Exchange>)
      requires Consistent()
      modifies this`now, this`transcript
      ensures Records(t) && Paced(t, old(now), 0) && |t| == 1 && t[0].cmd == SIGNAL_QUERY.cmd && now == Clock(t, old(now))
      ensures r == (if Passes(SIGNAL_QUERY, t[0].reply) then ParseSignal(t[0].reply.value)
                    else Err(Failure(SIGNAL_QUERY, t[0].reply)))
    {
      var res;
      res, t := Single(SIGNAL_QUERY);
      if res.Err? {
        return Err(res.error), t;
      }
      r := ParseSignal(res.value);
    }

    /** One `AT+CIFSR` round of `get_ip`, recorded as `e`. */
    method IpQuery() returns (res: Result<string>, ghost e: Exchange)
      requires Consistent()
      modifies this`now, this`transcript
      ensures e.cmd == "get_ip" && e.pause == DEFAULT_PAUSE && e.reply == res
      ensures e.began == old(now) && e.at == now && old(now) <= now
      ensures transcript == old(transcript) + [e] && (Wrote(e) <==> linked)
      ensures Consistent()
    {
      res, e := DoAtCommand("get_ip", DEFAULT_PAUSE);
    }

    /**
     * `get_ip`: send `AT+CIFSR` until a reply carries an acceptable
     * address, which is stored and returned; a reply without one is retried
     * after a one-second sleep until the await window has passed, and then
     * `GPRSGetIpError` is raised and the stored address is left as it was.
     */
    method GetIp() returns (r: Result<string>, ghost t: seq<Exchange>)
      requires Consistent()
      modifies this`now, this`transcript, this`ip
      ensures Records(t)
      ensures GetIpTrace(t, old(now)) && r == GetIpResult(t)
      ensures now == Clock(t, old(now))
      ensures r.Ok? ==> IsDottedQuad(r.value) && ip == Some(r.value)
      ensures r.Err? ==> ip == old(ip)
      ensures ip == StoredIp(t, old(ip))
    {
      var start := now;
      t := [];
      while true
        invariant Records(t) && ip == old(ip)
        invariant start == old(now) && now - start <= IP_MAX_AWAIT + IP_RETRY_SLEEP
        invariant IpRounds(t, start)
        invariant now == RoundStart(t, |t|, start, IP_RETRY_SLEEP)
        decreases IP_MAX_AWAIT + IP_RETRY_SLEEP - (now - start)
      {
        var res, e := IpQuery();
        Extended(old(transcript), t, e);
        var found := if res.Err? then res else IpOf(res.value);
        if found.Ok? {
          IpRoundLast(t, e, start);
          assert GetIpResult(t + [e]) == found;
          GetIpStores(t + [e], start, ip);
          ip := Some(found.value);
          return found, t + [e];
        }
        if now - start > IP_MAX_AWAIT || !IpRetry(res) {
          IpRoundLast(t, e, start);
          assert GetIpResult(t + [e]) == found;
          GetIpStores(t + [e], start, ip);
          return found, t + [e];
        }
        IpRoundNext(t, e, start);
        t := t + [e];
        now := now + IP_RETRY_SLEEP;
      }
    }

    /**
     * `get_ip` on a held serial handle whose next eight replies all read
     * `ERROR`: it sends the address query eight times, a second after each
     * previous reply, and raises `GPRSGetIpError` eleven seconds after it
     * started, leaving the stored address as it was.
     */
    method IpErrorsRetried() returns (r: Result<string>, ghost t: seq<Exchange>)
      requires Consistent() && linked
      requires forall i :: 0 <= i < 8 ==> ReplyAt(Script(), i) == Decoded(ERROR_TOKEN)
      modifies this`now, this`transcript, this`ip
      ensures r == Err(GetIpError) && ip == old(ip) && now == old(now) + 11000
      ensures |t| == 8
      ensures forall k :: 0 <= k < 8 ==> t[k].cmd == "get_ip" && t[k].began == old(now) + 1500 * k
    {
      ghost var t0, start := transcript, now;
      assert Script() == Drop(replies, Tries(t0));
      assert forall i :: 0 <= i < 8 ==> ReplyAt(Drop(replies, Tries(t0)), i) == Decoded(ERROR_TOKEN);
      r, t := GetIp();
      assert transcript == t0 + t && Live(t, true);
      assert forall j :: 0 <= j < |t0 + t| ==> AnsweredAt(t0 + t, replies, j);
      GetIpOnErrors(t0, t, replies, start);
    }

    /**
     * `connected_ok`: the liveness check, the attach query and `get_ip`,
     * stopping at the first that raises; otherwise it returns True, with
     * an accepted address stored.
     */
    method ConnectedOk() returns (r: Outcome, ghost t: seq<Exchange>)
      requires Consistent()
      modifies this`now, this`transcript, this`ip
      ensures Records(t)
      ensures ConnectedOkRun(t, old(now), r) && now == Clock(t, old(now))
      ensures r == Pass ==> ip.Some? && IsDottedQuad(ip.value)
      ensures r.Fail? ==> ip == old(ip)
      ensures ip == StoredIp(t, old(ip))
    {
      var a, t1 := AtCheckReady();
      if a != Pass {
        ConnectedOkIntro(t1, [], [], old(now), a, Pass, a);
        assert t1 + [] + [] == t1 + [];
        ChecksKeepIp(t1, [], a, a, ip);
        return a, t1 + [];
      }
      var g, t2 := GprsOk();
      Joined(old(transcript), t1, t2);
      ClockConcat(t1, t2, old(now));
      if g != Pass {
        ConnectedOkIntro(t1, t2, [], old(now), a, g, g);
        assert t1 + t2 + [] == t1 + t2;
        ChecksKeepIp(t1, t2, a, g, ip);
        return g, t1 + t2;
      }
      ChecksNoIpQuery(t1, t2, a, g);
      var address, t3 := GetIp();
      Joined(old(transcript), t1 + t2, t3);
      ClockConcat(t1 + t2, t3, old(now));
      StoredIpSkips(t1 + t2, t3, old(ip));
      r := Status(address);
      ConnectedOkIntro(t1, t2, t3, old(now), a, g, r);
      t := t1 + t2 + t3;
    }

    /**
     * The configuration steps in the middle of `connect`: PDP mode, the
     * provider and the wireless link, stopping at the first that raises.
     */
    method Configure() returns (r: Outcome, ghost t: seq<Exchange>)
      requires Consistent()
      modifies this`now, this`transcript
      ensures Records(t) && Paced(t, old(now), 0) && now == Clock(t, old(now))
      ensures PlanRun(BringUpPlan(provider), t, r)
    {
      ghost var plan := BringUpPlan(provider);
      assert plan == [PDP_ENABLE] + [SetProviderStep(provider)] + [WIRELESS_ENABLE];
      var b, t2 := EnablePdp();
      if b != Pass {
        RanStopsEarly([PDP_ENABLE], [SetProviderStep(provider)] + [WIRELESS_ENABLE], t2);
        return b, t2;
      }
      var c, t3 := SetProvider(provider);
      Joined(old(transcript), t2, t3);
      ClockConcat(t2, t3, old(now));
      PacedConcat(t2, t3, old(now));
      RanAppend([PDP_ENABLE], [SetProviderStep(provider)], t2, t3);
      if c != Pass {
        RanStopsEarly([PDP_ENABLE] + [SetProviderStep(provider)], [WIRELESS_ENABLE], t2 + t3);
        return c, t2 + t3;
      }
      ghost var t4;
      r, t4 := EnableWireless();
      Joined(old(transcript), t2 + t3, t4);
      ClockConcat(t2 + t3, t4, old(now));
      PacedConcat(t2 + t3, t4, old(now));
      RanAppend([PDP_ENABLE] + [SetProviderStep(provider)], [WIRELESS_ENABLE], t2 + t3, t4);
      t := t2 + t3 + t4;
    }

    /**
     * The middle of `connect`: GPRS attach, PDP mode, the provider and the
     * wireless link, stopping at the first that raises.
     */
    method BringUp() returns (r: Outcome, ghost t: seq<Exchange>)
      requires Consistent()
      modifies this`now, this`transcript
      ensures Records(t) && Paced(t, old(now), 0) && now == Clock(t, old(now))
      ensures BringUpRun(t, provider, r)
    {
      var a, t1 := EnableGprs();
      if a != Pass {
        BringUpIntro(t1, [], provider, a, a);
        assert t1 + [] == t1;
        return a, t1;
      }
      ghost var u;
      r, u := Configure();
      Joined(old(transcript), t1, u);
      ClockConcat(t1, u, old(now));
      PacedConcat(t1, u, old(now));
      BringUpIntro(t1, u, provider, a, r);
      t := t1 + u;
    }

    /**
     * `connect`: the liveness check, GPRS attach, PDP mode, the provider,
     * the wireless link, `get_ip` and then `connected_ok`, re-raising the
     * first exception; `connected_ok` cannot return False, so the
     * `Connect Failed` branch is never taken.
     */
    method Connect() returns (r: Outcome, ghost t: seq<Exchange>)
      requires Consistent()
      modifies this`now, this`transcript, this`ip
      ensures Records(t)
      ensures ConnectRun(t, old(now), provider, r) && now == Clock(t, old(now))
      ensures r == Pass ==> ip.Some? && IsDottedQuad(ip.value)
      ensures ip == StoredIp(t, old(ip))
    {
      var a, t1 := AtCheckReady();
      if a != Pass {
        ConnectIntro(t1, [], [], [], old(now), provider, a, Pass, a);
        assert t1 + [] + [] + [] == t1 + [];
        ChecksKeepIp(t1, [], a, a, ip);
        return a, t1 + [];
      }
      var b, t2 := BringUp();
      Joined(old(transcript), t1, t2);
      ClockConcat(t1, t2, old(now));
      HeadKeepsIp(t1, t2, provider, a, b, ip);
      if b != Pass {
        ConnectIntro(t1, t2, [], [], old(now), provider, a, b, b);
        assert t1 + t2 + [] + [] == t1 + t2;
        return b, t1 + t2;
      }
      var address, t3 := GetIp();
      Joined(old(transcript), t1 + t2, t3);
      ClockConcat(t1 + t2, t3, old(now));
      StoredIpSkips(t1 + t2, t3, old(ip));
      if address.Err? {
        ConnectIntro(t1, t2, t3, [], old(now), provider, a, b, Status(address));
        assert t1 + t2 + t3 + [] == t1 + t2 + t3;
        return Status(address), t1 + t2 + t3;
      }
      ghost var t4;
      r, t4 := ConnectedOk();
      Joined(old(transcript), t1 + t2 + t3, t4);
      ClockConcat(t1 + t2 + t3, t4, old(now));
      StoredIpConcat(t1 + t2 + t3, t4, old(ip));
      ConnectIntro(t1, t2, t3, t4, old(now), provider, a, b, r);
      t := t1 + t2 + t3 + t4;
    }

    /**
     * `check_stuck`: `AT+CIFSR` and then `AT+CIICR`, neither judged; the
     * module is stuck when the first reply fails the OK check and the
     * second is empty.  A transport error propagates.
     */
    method CheckStuck() returns (r: Result<bool>, ghost t: seq<Exchange>)
      requires Consistent()
      modifies this`now, this`transcript
      ensures Records(t) && Paced(t, old(now), 0)
      ensures PlanRun(STUCK_PROBES, t, Status(r)) && now == Clock(t, old(now))
      ensures r.Ok? ==>
        && |t| == 2 && t[0].reply.Ok? && t[1].reply.Ok?
        && r.value == (!Accepts(AtOk, t[0].reply.value) && t[1].reply.value == "")
    {
      ghost var start, begin := transcript, now;
      assert STUCK_PROBES[..0] == [] && transcript == start + [];
      var res;
      res, t := PlanStep(start, begin, STUCK_PROBES, 0, []);
      if res.Err? {
        return Err(res.error), t;
      }
      var chkIp := Accepts(AtOk, res.value);
      res, t := PlanStep(start, begin, STUCK_PROBES, 1, t);
      if res.Err? {
        return Err(res.error), t;
      }
      r := Ok(!chkIp && res.value == "");
    }

    /** `reset_gprs`: `disable_pdp` and then `disable_gprs`, re-raising the first exception. */
    method ResetGprs() returns (r: Outcome, ghost t: seq<Exchange>)
      requires Consistent()
      modifies this`now, this`transcript
      ensures Records(t) && Paced(t, old(now), 0)
      ensures PlanRun(GPRS_RESET, t, r) && now == Clock(t, old(now))
    {
      var pdp;
      pdp, t := DisablePdp();
      assert [PDP_CLOSE] + [GPRS_DETACH] == GPRS_RESET;
      if pdp.Fail? {
        RanStopsEarly([PDP_CLOSE], [GPRS_DETACH], t);
        return pdp, t;
      }
      ghost var u;
      r, u := DisableGprs();
      Joined(old(transcript), t, u);
      ClockConcat(t, u, old(now));
      PacedConcat(t, u, old(now));
      RanAppend([PDP_CLOSE], [GPRS_DETACH], t, u);
      t := t + u;
    }

    /**
     * `reset_hardware`: with the GPIO library present, pulse the power key
     * low and high twice, one second apart; without it nothing happens.
     * It never raises.
     */
    method ResetHardware()
      modifies this`now, this`pulses
      ensures now == old(now) + (if gpioPresent then GPIO_RESET_TIME else 0)
      ensures pulses == old(pulses) + (if gpioPresent then 1 else 0)
    {
      if gpioPresent {
        now := now + GPIO_RESET_TIME;
        pulses := pulses + 1;
      }
    }

    /**
     * The body of `reset` after the serial handle is dropped and the
     * hardware pulsed: open and check the port, watch the boot, and connect when asked, re-raising the first
     * exception.
     */
    method Restart(enableGprs: bool) returns (r: Outcome, ghost t: seq<Exchange>)
      requires !linked
      requires Consistent()
      modifies this`linked, this`now, this`transcript, this`ip
      ensures Records(t) && linked == portAvailable
      ensures ResetRun(t, old(now), now, portAvailable, provider, enableGprs, r)
      ensures r == Pass && enableGprs ==> ip.Some? && IsDottedQuad(ip.value)
      ensures ip == StoredIp(t, old(ip)) && (!enableGprs ==> ip == old(ip))
    {
      var a, t1 := InitSerial();
      if a != Pass {
        assert t1 + [] + [] == t1 + [] == t1;
        InitAndBootNoIpQuery(t1, [], old(now), portAvailable, a, Pass, ip);
        ResetIntro(t1, [], [], old(now), now, portAvailable, provider, enableGprs, a, Pass, a);
        return a, t1;
      }
      var b, t2 := MonitorBoot();
      Joined(old(transcript), t1, t2);
      InitAndBootNoIpQuery(t1, t2, old(now), portAvailable, a, b, ip);
      if b != Pass || !enableGprs {
        assert t1 + t2 + [] == t1 + t2;
        ResetIntro(t1, t2, [], old(now), now, portAvailable, provider, enableGprs, a, b, b);
        return b, t1 + t2;
      }
      ghost var t3;
      r, t3 := Connect();
      Joined(old(transcript), t1 + t2, t3);
      StoredIpSkips(t1 + t2, t3, old(ip));
      ResetIntro(t1, t2, t3, old(now), now, portAvailable, provider, enableGprs, a, b, r);
      t := t1 + t2 + t3;
    }

    /**
     * `reset`: drop the serial handle, pulse the module, then restart the
     * session from the moment the pulse ends.
     */
    method Reset(enableGprs: bool) returns (r: Outcome, ghost t: seq<Exchange>)
      requires Consistent()
      modifies this`linked, this`now, this`transcript, this`ip, this`pulses
      ensures Records(t) && linked == portAvailable
      ensures pulses == old(pulses) + (if gpioPresent then 1 else 0)
      ensures ResetRun(t, old(now) + (if gpioPresent then GPIO_RESET_TIME else 0), now, portAvailable, provider, enableGprs, r)
      ensures r == Pass && enableGprs ==> ip.Some? && IsDottedQuad(ip.value)
      ensures ip == StoredIp(t, old(ip)) && (!enableGprs ==> ip == old(ip))
    {
      linked := false;
      ResetHardware();
      r, t := Restart(enableGprs);
    }

    /** `reset_sms_text_input_mode`: write Ctrl-Z to leave SMS text entry; the reply is ignored, a transport error propagates. */
    method ResetSmsTextInputMode() returns (r: Outcome, ghost t: seq<Exchange>)
      requires Consistent()
      modifies this`now, this`transcript
      ensures Records(t) && Paced(t, old(now), 0)
      ensures PlanRun([TEXT_INPUT_ESCAPE], t, r) && now == Clock(t, old(now))
    {
      var res;
      res, t := Single(TEXT_INPUT_ESCAPE);
      r := Status(res);
    }
  }
}
