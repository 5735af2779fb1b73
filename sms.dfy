/**
 * The SMS operations of the driver (`sim800c/sms.py`): sending a text,
 * reading one stored message and deleting every stored message.  Each is
 * a short fixed sequence of commands on the controller, in text mode, that
 * raises `GPRSSMSError` at the first reply that does not classify as the
 * step demands.
 */
module SmsFlows {
  import opened Errors
  import opened PyText
  import opened Catalog
  import opened Classify
  import opened Transport
  import opened Session
  import opened Controller

  /** The default pause after the text and its Ctrl-Z terminator, in milliseconds. */
  const SEND_SMS_PAUSE: nat := 3000

  /** `AT+CMGF=1`: text mode, set first by every SMS operation; the reply must classify OK. */
  const SMS_MODE: Step := Step("set_sms_mode", DEFAULT_PAUSE, Checked(AtOk, SMSError))

  /** The catalog texts of `set_sms_phone_number` and `read_sms`, which the driver completes with an argument. */
  const SMS_NUMBER_PREFIX: string := "AT+CMGS="
  const SMS_READ_PREFIX: string := "AT+CMGR="

  /** `AT+CMGS="<number>"`: the reply must show the `>` prompt and no `ERROR`. */
  function NumberStep(number: string): Step {
    Step(SMS_NUMBER_PREFIX + "\"" + number + "\"", DEFAULT_PAUSE, Checked(SmsSendReady, SMSError))
  }

  /** The text and its Ctrl-Z terminator, after the given pause; the reply is not judged. */
  function TextStep(message: string, pause: nat): Step {
    Step(message + "\U{1A}", pause, Unchecked)
  }

  /** The commands of `send_sms_message` once the throttle lets it through. */
  function SendPlan(number: string, message: string, pause: nat): seq<Step> {
    [SMS_MODE, NumberStep(number), TextStep(message, pause)]
  }

  /** `AT+CMGR=<n>`: the read must classify OK. */
  function ReadStep(n: int): Step {
    Step(SMS_READ_PREFIX + IntToDecimal(n), DEFAULT_PAUSE, Checked(AtOk, SMSError))
  }

  /** The commands of `read_sms_message`. */
  function ReadPlan(n: int): seq<Step> {
    [SMS_MODE, ReadStep(n)]
  }

  /** `AT+CMGDA="DEL ALL"`: the reply must classify OK. */
  const DELETE_ALL: Step := Step("delete_all_sms", DEFAULT_PAUSE, Checked(AtOk, SMSError))

  /** The commands of `delete_all_sms_messages`. */
  const DELETE_PLAN: seq<Step> := [SMS_MODE, DELETE_ALL]

  /** `send_sms_message`: refused without a call while the throttle blocks, else its plan. */
  ghost predicate SendRun(blocked: bool, number: string, message: string, pause: nat, t: seq<Exchange>, r: Outcome) {
    if blocked then t == [] && r == Fail(SMSError) else PlanRun(SendPlan(number, message, pause), t, r)
  }

  /** `read_sms_message`: its plan, and when the plan passes, the parse of the read's reply. */
  ghost predicate ReadRun(n: int, t: seq<Exchange>, r: Result<string>) {
    && Ran(ReadPlan(n), t)
    && if Verdict(ReadPlan(n), t).Fail? then r == Err(Verdict(ReadPlan(n), t).error)
       else |t| == 2 && t[1].reply.Ok? && r == ParseSmsBody(t[1].reply.value)
  }

  /** The two prefixes are what the catalog resolves their names to. */
  lemma SmsPrefixes()
    ensures Resolve("set_sms_phone_number") == SMS_NUMBER_PREFIX
    ensures Resolve("read_sms") == SMS_READ_PREFIX
  {
    assert "set_sms_phone_number" in AT_COMMANDS && "read_sms" in AT_COMMANDS;
  }

  /** The number and read commands are ready-made AT text, written as built. */
  lemma SmsFrames(number: string, n: int)
    ensures Frame(NumberStep(number).cmd) == SMS_NUMBER_PREFIX + "\"" + number + "\"" + CRLF
    ensures Frame(ReadStep(n).cmd) == SMS_READ_PREFIX + IntToDecimal(n) + CRLF
  {
    UpperTextPassesThrough(NumberStep(number).cmd);
    UpperTextPassesThrough(ReadStep(n).cmd);
  }

  /**
   * A send that the throttle lets through: the number is written only
   * after text mode was accepted, and the text only after the prompt was
   * shown; the send completes exactly when the text was written and its
   * call returned.  A refused reply raises `GPRSSMSError`, a transport
   * failure its own error.
   */
  lemma SendOrder(number: string, message: string, pause: nat, t: seq<Exchange>, r: Outcome)
    requires SendRun(false, number, message, pause, t, r)
    ensures 1 <= |t| <= 3 && t[0].cmd == SMS_MODE.cmd
    ensures |t| >= 2 <==> Passes(SMS_MODE, t[0].reply)
    ensures |t| >= 2 ==> t[1].cmd == NumberStep(number).cmd
    ensures |t| == 3 <==> |t| >= 2 && Passes(SMS_MODE, t[0].reply) && Passes(NumberStep(number), t[1].reply)
    ensures |t| == 3 ==> t[2].cmd == message + "\U{1A}"
    ensures r == Pass <==> |t| == 3 && t[2].reply.Ok?
    ensures r.Fail? && t[|t| - 1].reply.Ok? ==> r.error == SMSError
    ensures r.Fail? && t[|t| - 1].reply.Err? ==> r.error == t[|t| - 1].reply.error
  {
    RanSpec(SendPlan(number, message, pause), t);
  }

  /**
   * A read writes `AT+CMGR=<n>` only after text mode was accepted; it
   * returns the parse of the read's reply exactly when that reply was
   * accepted, and otherwise raises.  A message is returned only from a
   * reply that holds the `+CMGR: ` marker.
   */
  lemma ReadOrder(n: int, t: seq<Exchange>, r: Result<string>)
    requires ReadRun(n, t, r)
    ensures 1 <= |t| <= 2 && t[0].cmd == SMS_MODE.cmd
    ensures |t| == 2 <==> Passes(SMS_MODE, t[0].reply)
    ensures |t| == 2 ==> t[1].cmd == ReadStep(n).cmd
    ensures |t| == 2 && Passes(ReadStep(n), t[1].reply) ==> r == ParseSmsBody(t[1].reply.value)
    ensures !(|t| == 2 && Passes(ReadStep(n), t[1].reply)) ==>
      r.Err? && (if t[|t| - 1].reply.Ok? then r.error == SMSError else r.error == t[|t| - 1].reply.error)
    ensures r.Ok? ==> t[|t| - 1].reply.Ok? && Occurs(t[|t| - 1].reply.value, CMGR_MARKER)
  {
    RanSpec(ReadPlan(n), t);
    if r.Ok? {
      if !Occurs(t[1].reply.value, CMGR_MARKER) {
        LineAfterMissingMarker(t[1].reply.value, CMGR_MARKER);
      }
    }
  }

  /** A deletion writes `AT+CMGDA` only after text mode was accepted, and passes exactly when both replies were accepted. */
  lemma DeleteOrder(t: seq<Exchange>, r: Outcome)
    requires PlanRun(DELETE_PLAN, t, r)
    ensures 1 <= |t| <= 2 && t[0].cmd == SMS_MODE.cmd
    ensures |t| == 2 <==> Passes(SMS_MODE, t[0].reply)
    ensures |t| == 2 ==> t[1].cmd == DELETE_ALL.cmd
    ensures r == Pass <==> |t| == 2 && Passes(DELETE_ALL, t[1].reply)
    ensures r.Fail? && t[|t| - 1].reply.Ok? ==> r.error == SMSError
  {
    RanSpec(DELETE_PLAN, t);
  }

  class Sms {
    /** The controller whose link the operations use. */
    const controller: Sim800
    /** The time of the last completed send, stored on this object; `None` before the first. */
    var lastSmsTime: Option<int>

    constructor (controller: Sim800)
      ensures this.controller == controller && lastSmsTime == None
    {
      this.controller := controller;
      lastSmsTime := None;
    }

    /**
     * `send_sms_message`: refused with `GPRSSMSError` while the
     * controller's throttle blocks; otherwise text mode, the number and
     * the text.  A completed send stores the time here; the controller's
     * own reference time, which the throttle reads, is left as it was.
     */
    method SendSmsMessage(number: string, message: string, pause: nat) returns (r: Outcome, ghost t: seq<Exchange>)
      requires pause > 0
      requires controller.Consistent()
      modifies controller`now, controller`transcript, this`lastSmsTime
      ensures controller.Records(t)
      ensures SendRun(SmsBlocked(old(controller.now), old(controller.lastSmsTime)), number, message, pause, t, r)
      ensures lastSmsTime == if r == Pass then Some(controller.now) else old(lastSmsTime)
      ensures controller.lastSmsTime == old(controller.lastSmsTime)
    {
      if controller.SmsTimeBlocked() {
        return Fail(SMSError), [];
      }
      assert SendPlan(number, message, pause) == [SMS_MODE] + [NumberStep(number)] + [TextStep(message, pause)];
      var mode, t1 := controller.Single(SMS_MODE);
      if mode.Err? {
        RanStopsEarly([SMS_MODE], [NumberStep(number)] + [TextStep(message, pause)], t1);
        return Fail(mode.error), t1;
      }
      var ready, t2 := controller.Single(NumberStep(number));
      controller.Joined(old(controller.transcript), t1, t2);
      RanAppend([SMS_MODE], [NumberStep(number)], t1, t2);
      if ready.Err? {
        RanStopsEarly([SMS_MODE] + [NumberStep(number)], [TextStep(message, pause)], t1 + t2);
        return Fail(ready.error), t1 + t2;
      }
      var sent, t3 := controller.Single(TextStep(message, pause));
      controller.Joined(old(controller.transcript), t1 + t2, t3);
      RanAppend([SMS_MODE] + [NumberStep(number)], [TextStep(message, pause)], t1 + t2, t3);
      r, t := Status(sent), t1 + t2 + t3;
      if r == Pass {
        lastSmsTime := Some(controller.now);
      }
    }

    /**
     * `read_sms_message`: text mode, then `AT+CMGR=<n>`, each of which
     * must classify OK; the message is the line after the `+CMGR: ` header
     * line of the read's reply.
     */
    method ReadSmsMessage(n: int) returns (r: Result<string>, ghost t: seq<Exchange>)
      requires controller.Consistent()
      modifies controller`now, controller`transcript
      ensures controller.Records(t)
      ensures ReadRun(n, t, r)
    {
      var mode, t1 := controller.Single(SMS_MODE);
      if mode.Err? {
        RanStopsEarly([SMS_MODE], [ReadStep(n)], t1);
        return Err(mode.error), t1;
      }
      var res, t2 := controller.Single(ReadStep(n));
      controller.Joined(old(controller.transcript), t1, t2);
      RanAppend([SMS_MODE], [ReadStep(n)], t1, t2);
      t := t1 + t2;
      if res.Err? {
        return Err(res.error), t;
      }
      assert t[1] == t2[0];
      r := ParseSmsBody(res.value);
    }

    /** `delete_all_sms_messages`: text mode, then `AT+CMGDA="DEL ALL"`, each of which must classify OK. */
    method DeleteAllSmsMessages() returns (r: Outcome, ghost t: seq<Exchange>)
      requires controller.Consistent()
      modifies controller`now, controller`transcript
      ensures controller.Records(t)
      ensures PlanRun(DELETE_PLAN, t, r)
    {
      var mode, t1 := controller.Single(SMS_MODE);
      if mode.Err? {
        RanStopsEarly([SMS_MODE], [DELETE_ALL], t1);
        return Fail(mode.error), t1;
      }
      var res, t2 := controller.Single(DELETE_ALL);
      controller.Joined(old(controller.transcript), t1, t2);
      RanAppend([SMS_MODE], [DELETE_ALL], t1, t2);
      r, t := Status(res), t1 + t2;
    }
  }
}
