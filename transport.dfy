/**
 * The serial link as the driver sees it, and the shape of a command exchange.
 *
 * The module's replies are a script: each read after a write takes the next
 * entry, which either decodes to text or fails to decode.  Reading with
 * nothing waiting gives empty text.  `do_at_command` retries a reply that
 * fails to decode by writing the same frame again, until a decode succeeds or
 * its await window has passed; the functions below compute, from the script
 * and the pause, how many reads that takes and what it returns.
 *
 * Fixed command sequences (a plan of steps, each optionally checked by a
 * classifier) are given a meaning over the exchanges they produce: `Ran`
 * says a sequence of exchanges is what running the plan produces, stopping
 * at the first step that fails, and `Verdict` says how the run ends.
 */
module Transport {
  import opened Errors
  import opened Catalog
  import opened Classify

  datatype Reply = Decoded(text: string) | Undecodable

  /** The reply the `i`-th read gets; empty text once the script is exhausted. */
  function ReplyAt(script: seq<Reply>, i: nat): Reply {
    if i < |script| then script[i] else Decoded("")
  }

  /** The script left after `n` reads. */
  function Drop(script: seq<Reply>, n: nat): seq<Reply> {
    if n <= |script| then script[n..] else []
  }

  lemma ReplyAtDrop(script: seq<Reply>, n: nat, i: nat)
    ensures ReplyAt(Drop(script, n), i) == ReplyAt(script, n + i)
  {
  }

  lemma DropDrop(script: seq<Reply>, m: nat, n: nat)
    ensures Drop(Drop(script, m), n) == Drop(script, m + n)
  {
  }

  /** Pauses, in milliseconds. */
  const DEFAULT_PAUSE: nat := 500
  /** `do_at_command`'s window for decode retries, in milliseconds. */
  const DECODE_MAX_AWAIT: nat := 10000

  /**
   * The rounds of a loop that, starting `elapsed` into its window, checks
   * `elapsed > budget` before each round and spends `step` per round.
   */
  function RetryRounds(elapsed: int, step: nat, budget: int): nat
    requires step > 0
    decreases budget - elapsed
  {
    if elapsed > budget then 0 else 1 + RetryRounds(elapsed + step, step, budget)
  }

  /**
   * The most reads one `do_at_command` makes: the first read, then one per
   * retry round; a failed retry costs the pause twice (await, then sleep).
   */
  function MaxReads(pause: nat): nat
    requires pause > 0
  {
    1 + RetryRounds(0, 2 * pause, DECODE_MAX_AWAIT)
  }

  /** Reads made when reading stops at the first reply that decodes, after at most `limit` reads. */
  function Attempts(script: seq<Reply>, limit: nat): nat
    decreases limit
  {
    if limit == 0 then 0
    else if ReplyAt(script, 0).Decoded? then 1
    else 1 + Attempts(Drop(script, 1), limit - 1)
  }

  /** The reads one `do_at_command` makes on `script`. */
  function Reads(script: seq<Reply>, pause: nat): nat
    requires pause > 0
  {
    Attempts(script, MaxReads(pause))
  }

  /** What one `do_at_command` returns on `script`: the first decoded text, or `GPRSError` once retries are exhausted. */
  function ReadResult(script: seq<Reply>, pause: nat): Result<string>
    requires pause > 0
  {
    var n := Reads(script, pause);
    if n >= 1 && ReplyAt(script, n - 1).Decoded? then Ok(ReplyAt(script, n - 1).text) else Err(GPRSError)
  }

  /**
   * Reading stops at the first reply that decodes: it makes at least one and
   * at most `limit` reads, every reply before the last one read failed to
   * decode, and reading short of the limit means the last one decoded.
   */
  lemma {:induction false} AttemptsSpec(script: seq<Reply>, limit: nat)
    requires limit >= 1
    ensures var n := Attempts(script, limit);
      && 1 <= n <= limit
      && (forall i :: 0 <= i < n - 1 ==> ReplyAt(script, i).Undecodable?)
      && (n < limit ==> ReplyAt(script, n - 1).Decoded?)
    decreases limit
  {
    if ReplyAt(script, 0).Undecodable? && limit > 1 {
      AttemptsSpec(Drop(script, 1), limit - 1);
      var n := Attempts(script, limit);
      forall i | 0 <= i < n - 1 ensures ReplyAt(script, i).Undecodable? {
        if i > 0 {
          ReplyAtDrop(script, 1, i - 1);
        }
      }
      ReplyAtDrop(script, 1, n - 2);
    }
  }

  /**
   * Replies that fail to decode are read one by one: after `j` of them,
   * reading goes on over the rest of the script with the remaining limit.
   */
  lemma {:induction false} AttemptsSkip(script: seq<Reply>, j: nat, limit: nat)
    requires forall i :: 0 <= i < j ==> ReplyAt(script, i).Undecodable?
    ensures Attempts(script, j + limit) == j + Attempts(Drop(script, j), limit)
    decreases j
  {
    if j > 0 {
      var rest := Drop(script, 1);
      forall i | 0 <= i < j - 1 ensures ReplyAt(rest, i).Undecodable? {
        ReplyAtDrop(script, 1, i);
      }
      AttemptsSkip(rest, j - 1, limit);
      DropDrop(script, 1, j - 1);
    }
  }

  /** A reply that decodes at once is returned after a single write. */
  lemma FirstReadDecodes(script: seq<Reply>, pause: nat)
    requires pause > 0 && ReplyAt(script, 0).Decoded?
    ensures Reads(script, pause) == 1
    ensures ReadResult(script, pause) == Ok(ReplyAt(script, 0).text)
    ensures ReadTime(script, pause) == pause
  {
  }

  /**
   * `do_at_command` returns the text of the first reply that decodes within
   * its reads, and raises `GPRSError` only when every one of its reads
   * failed to decode.
   */
  lemma ReadResultSpec(script: seq<Reply>, pause: nat)
    requires pause > 0
    ensures var n := Reads(script, pause);
      && 1 <= n <= MaxReads(pause)
      && (forall i :: 0 <= i < n - 1 ==> ReplyAt(script, i).Undecodable?)
      && (ReadResult(script, pause).Err? <==> n == MaxReads(pause) && ReplyAt(script, n - 1).Undecodable?)
      && (ReadResult(script, pause).Err? ==> ReadResult(script, pause).error == GPRSError)
  {

    AttemptsSpec(script, MaxReads(pause));
  }

  /**
   * The clock time one `do_at_command` spends on `script`: a pause after
   * every write, and a further pause after every failed retry.
   */
  function ReadTime(script: seq<Reply>, pause: nat): int
    requires pause > 0
  {
    var n := Reads(script, pause);
    if ReadResult(script, pause).Ok? && n >= 2 then pause * (2 * n - 2) else pause * (2 * n - 1)
  }

  /** The clock spent by `n - 1` failed retries of `pause` each, counted from the first read. */
  function RetryTime(pause: nat, n: nat): nat {
    if n <= 1 then 0 else RetryTime(pause, n - 1) + 2 * pause
  }

  lemma {:induction false} RetryTimeClosed(pause: nat, n: nat)
    requires n >= 1
    ensures RetryTime(pause, n) == pause * (2 * n - 2)
  {
    if n > 1 {
      RetryTimeClosed(pause, n - 1);
    }
  }

  /** A read that decodes after `n - 1` failed ones, within the limit, ends the call. */
  lemma DecodedAfterRetries(script: seq<Reply>, pause: nat, n: nat)
    requires pause > 0 && 2 <= n <= MaxReads(pause)
    requires forall i :: 0 <= i < n - 1 ==> ReplyAt(script, i).Undecodable?
    requires ReplyAt(script, n - 1).Decoded?
    ensures Reads(script, pause) == n
    ensures ReadResult(script, pause) == Ok(ReplyAt(script, n - 1).text)
    ensures ReadTime(script, pause) == RetryTime(pause, n)
  {
    AttemptsSkip(script, n - 1, MaxReads(pause) - (n - 1));
    ReplyAtDrop(script, n - 1, 0);
    assert Attempts(Drop(script, n - 1), MaxReads(pause) - (n - 1)) == 1;
    assert Reads(script, pause) == n;
    RetryTimeClosed(pause, n);
  }

  /** Reads that all fail to decode, up to the limit, end the call with `GPRSError`. */
  lemma GivesUp(script: seq<Reply>, pause: nat, n: nat)
    requires pause > 0 && 1 <= n == MaxReads(pause)
    requires forall i :: 0 <= i < n ==> ReplyAt(script, i).Undecodable?
    ensures Reads(script, pause) == n
    ensures ReadResult(script, pause) == Err(GPRSError)
    ensures ReadTime(script, pause) == pause + RetryTime(pause, n)
  {
    AttemptsSkip(script, n, 0);
    RetryTimeClosed(pause, n);
  }

  /** One call takes at least its pause and at most twice its pause per write. */
  lemma ReadTimeBounds(script: seq<Reply>, pause: nat)
    requires pause > 0
    ensures pause <= ReadTime(script, pause) <= 2 * pause * Reads(script, pause)
  {
    ReadResultSpec(script, pause);
  }

  /** With the default half-second pause, a command is written at most twelve times. */
  lemma DefaultPauseReads()
    ensures MaxReads(DEFAULT_PAUSE) == 12
  {
  }

  /** `n` copies of one frame: what a command writes when it is retried. */
  function Repeat(frame: string, n: nat): (r: seq<string>)
    ensures |r| == n && forall i :: 0 <= i < n ==> r[i] == frame
  {
    seq(n, _ => frame)
  }

  /** The errors the transport itself raises: a failed decode retry, or a call with no serial handle. */
  predicate LinkError(e: Error) {
    e == GPRSError || e == NoLink
  }

  // ------------------------------------------------------------- exchanges

  /**
   * One `do_at_command` call: the command and the pause it was given, what
   * it returned, the clock when it was made and when it returned, and how
   * many times it wrote the command's frame (each write is followed by one
   * read).
   */
  datatype Exchange = Exchange(cmd: string, pause: nat, reply: Result<string>, began: int, at: int, tries: nat)

  /** Everything a sequence of calls wrote, in order. */
  function Writes(t: seq<Exchange>): seq<string> {
    if t == [] then [] else Writes(t[..|t| - 1]) + Repeat(Frame(t[|t| - 1].cmd), t[|t| - 1].tries)
  }

  /** How many replies a sequence of calls consumed. */
  function Tries(t: seq<Exchange>): nat {
    if t == [] then 0 else Tries(t[..|t| - 1]) + t[|t| - 1].tries
  }

  /** The clock after a sequence of calls that started at `start`. */
  function Clock(t: seq<Exchange>, start: int): int {
    if t == [] then start else t[|t| - 1].at
  }

  /**
   * The clock when the `k`-th call of a loop begins: at `start` for the
   * first, and `gap` after the call before it returned for the others.
   */
  function RoundStart(t: seq<Exchange>, k: nat, start: int, gap: nat): int
    requires k <= |t|
  {
    if k == 0 then start else t[k - 1].at + gap
  }

  /** Each call of `t` began `gap` after the one before it returned, the first at `start`. */
  predicate Paced(t: seq<Exchange>, start: int, gap: nat) {
    forall k {:trigger t[k].began} :: 0 <= k < |t| ==> t[k].began == RoundStart(t, k, start, gap)
  }

  /** One more call that began on time keeps a run paced. */
  lemma PacedSnoc(t: seq<Exchange>, e: Exchange, start: int, gap: nat)
    requires Paced(t, start, gap) && e.began == RoundStart(t, |t|, start, gap)
    ensures Paced(t + [e], start, gap)
    ensures RoundStart(t + [e], |t| + 1, start, gap) == e.at + gap
  {
    var u := t + [e];
    forall k | 0 <= k < |u| ensures u[k].began == RoundStart(u, k, start, gap) {
      if 0 < k <= |t| {
        assert u[k - 1] == t[k - 1];
      }
    }
  }

  /** With no gap, a run paced from `start` and one paced from where it ended make one paced run. */
  lemma PacedConcat(t: seq<Exchange>, u: seq<Exchange>, start: int)
    requires Paced(t, start, 0) && Paced(u, Clock(t, start), 0)
    ensures Paced(t + u, start, 0)
  {
    var v := t + u;
    forall k | 0 <= k < |v| ensures v[k].began == RoundStart(v, k, start, 0) {
      if k < |t| {
        assert v[k] == t[k];
        if k > 0 {
          assert v[k - 1] == t[k - 1];
        }
      } else {
        assert v[k] == u[k - |t|];
        if k > |t| {
          assert v[k - 1] == u[k - |t| - 1];
        } else if k > 0 {
          assert v[k - 1] == t[|t| - 1];
        }
      }
    }
  }

  /** The clock after two runs in a row is the clock after the second, started where the first ended. */
  lemma ClockConcat(t: seq<Exchange>, u: seq<Exchange>, start: int)
    ensures Clock(t + u, start) == Clock(u, Clock(t, start))
  {
    if u == [] {
      assert t + u == t;
    }
  }

  lemma WritesSnoc(t: seq<Exchange>, e: Exchange)
    ensures Writes(t + [e]) == Writes(t) + Repeat(Frame(e.cmd), e.tries)
    ensures Tries(t + [e]) == Tries(t) + e.tries
  {
    assert (t + [e])[..|t|] == t;
  }

  /** The replies two runs in a row consume are those of the first and then those of the second. */
  lemma {:induction false} TriesConcat(t: seq<Exchange>, u: seq<Exchange>)
    ensures Tries(t + u) == Tries(t) + Tries(u)
    decreases |u|
  {
    if u == [] {
      assert t + u == t;
    } else {
      var v := u[..|u| - 1];
      TriesConcat(t, v);
      assert (t + u)[..|t + u| - 1] == t + v;
    }
  }

  /**
   * The call `e`, made when `script` was unread, got what the module
   * answers: with a serial handle, the outcome of the decode-retry loop over
   * `script` with the call's own pause, after as many writes as that loop
   * makes (at least one) and the time that loop takes; without one,
   * `NoLink`, no write and no time.
   */
  predicate Answered(e: Exchange, script: seq<Reply>) {
    && e.pause > 0
    && if e.tries == 0 then e.reply == Err(NoLink) && e.at == e.began
       else
         && e.reply == ReadResult(script, e.pause) && e.tries == Reads(script, e.pause)
         && e.at == e.began + ReadTime(script, e.pause)
  }

  /** The `k`-th call of `t` got the module's answer, read on from the replies the calls before it consumed. */
  predicate AnsweredAt(t: seq<Exchange>, replies: seq<Reply>, k: nat)
    requires k < |t|
  {
    Answered(t[k], Drop(replies, Tries(t[..k])))
  }

  /** The `k`-th of the calls `t`, made after the calls `t0`, read on from the replies `t0` and the calls before it left. */
  lemma AnsweredAfter(t0: seq<Exchange>, t: seq<Exchange>, replies: seq<Reply>, k: nat)
    requires k < |t| && AnsweredAt(t0 + t, replies, |t0| + k)
    ensures Answered(t[k], Drop(Drop(replies, Tries(t0)), Tries(t[..k])))
  {
    ScriptAfter(t0, t, replies, k);
  }

  lemma ScriptAfter(t0: seq<Exchange>, t: seq<Exchange>, replies: seq<Reply>, k: nat)
    requires k < |t|
    ensures (t0 + t)[|t0| + k] == t[k]
    ensures Drop(replies, Tries((t0 + t)[..|t0| + k])) == Drop(Drop(replies, Tries(t0)), Tries(t[..k]))
  {
    assert (t0 + t)[..|t0| + k] == t0 + t[..k];
    TriesConcat(t0, t[..k]);
    DropDrop(replies, Tries(t0), Tries(t[..k]));
  }

  /** A call that wrote, on replies whose first one decodes, read that one reply and took exactly its pause. */
  lemma QuickAnswer(e: Exchange, script: seq<Reply>)
    requires Answered(e, script) && e.tries > 0 && ReplyAt(script, 0).Decoded?
    ensures e.tries == 1 && e.reply == Ok(ReplyAt(script, 0).text) && e.at == e.began + e.pause
  {
    FirstReadDecodes(script, e.pause);
  }

  /** The call wrote its frame at least once, which it does exactly when a serial handle is held. */
  predicate Wrote(e: Exchange) {
    e.tries > 0
  }

  /** Every call of `t` was made with a serial handle exactly when `linked`. */
  predicate Live(t: seq<Exchange>, linked: bool) {
    forall k {:trigger Wrote(t[k])} :: 0 <= k < |t| ==> (Wrote(t[k]) <==> linked)
  }

  /**
   * How a step judges its reply: not at all; by a classifier that must
   * accept it; by a classifier that must refuse it (`disable_pdp` raises
   * when the module confirms the shutdown); or by the attach flag, which
   * must read as `want`.  `err` is what the step raises when the judgement
   * goes against it.
   */
  datatype Check =
    | Unchecked
    | Checked(cls: Classifier, err: Error)
    | Refused(cls: Classifier, err: Error)
    | AttachFlag(want: bool, err: Error)

  /** One command of a fixed sequence: what to send, how long to wait, how to judge the reply. */
  datatype Step = Step(cmd: string, pause: nat, check: Check)

  predicate CheckPasses(c: Check, res: string) {
    match c
    case Unchecked => true
    case Checked(cls, _) => Accepts(cls, res)
    case Refused(cls, _) => !Accepts(cls, res)
    case AttachFlag(want, _) => GprsEnableOk(res) == Ok(want)
  }

  predicate Passes(step: Step, reply: Result<string>) {
    reply.Ok? && CheckPasses(step.check, reply.value)
  }

  /**
   * The error a failed step raises: the transport's own error, the error a
   * failing attach-flag conversion raises, or the step's error.
   */
  function Failure(step: Step, reply: Result<string>): Error
    requires !Passes(step, reply)
  {
    if reply.Err? then reply.error
    else match step.check
      case Unchecked => assert false; GPRSError
      case Checked(_, err) => err
      case Refused(_, err) => err
      case AttachFlag(_, err) =>
        var flag := GprsEnableOk(reply.value);
        if flag.Err? then flag.error else err
  }

  /** What one step returns to its caller: the reply text, or the error it raises. */
  function StepResult(step: Step, reply: Result<string>): (r: Result<string>)
    ensures r.Ok? <==> Passes(step, reply)
    ensures r.Ok? ==> reply == Ok(r.value)
    ensures r.Err? && reply.Err? ==> r.error == reply.error
  {
    if Passes(step, reply) then Ok(reply.value) else Err(Failure(step, reply))
  }

  /** The call `e` sent the step's command with the step's pause. */
  predicate Sent(e: Exchange, s: Step) {
    e.cmd == s.cmd && e.pause == s.pause
  }

  /** `t` is what running `plan` produces: one exchange per step, in order, up to and including the first failure. */
  ghost predicate Ran(plan: seq<Step>, t: seq<Exchange>)
    decreases |plan|
  {
    if plan == [] then t == []
    else
      && |t| >= 1
      && Sent(t[0], plan[0])
      && (if Passes(plan[0], t[0].reply) then Ran(plan[1..], t[1..]) else |t| == 1)
  }

  /** How a run ends: `Pass` when every step passed, else the first failing step's error. */
  ghost function Verdict(plan: seq<Step>, t: seq<Exchange>): Outcome
    requires Ran(plan, t)
    decreases |plan|
  {
    if plan == [] then Pass
    else if Passes(plan[0], t[0].reply) then Verdict(plan[1..], t[1..])
    else Fail(Failure(plan[0], t[0].reply))
  }

  /**
   * A run sends the plan's commands in order and never more of them than the
   * plan has; it passes exactly when it sent every command and every step
   * passed; a failing run stops at its last exchange, which is the first
   * step that failed and whose error it raises.
   */
  lemma {:induction false} RanSpec(plan: seq<Step>, t: seq<Exchange>)
    requires Ran(plan, t)
    ensures |t| <= |plan| && (plan != [] ==> |t| >= 1)
    ensures forall k :: 0 <= k < |t| ==> Sent(t[k], plan[k])
    ensures forall k :: 0 <= k < |t| - 1 ==> Passes(plan[k], t[k].reply)
    ensures Verdict(plan, t) == Pass <==> |t| == |plan| && forall k :: 0 <= k < |t| ==> Passes(plan[k], t[k].reply)
    ensures Verdict(plan, t).Fail? ==>
      var k := |t| - 1; !Passes(plan[k], t[k].reply) && Verdict(plan, t).error == Failure(plan[k], t[k].reply)
    decreases |plan|
  {
    if plan != [] && Passes(plan[0], t[0].reply) {
      RanSpec(plan[1..], t[1..]);
      forall k | 1 <= k < |t| ensures t[k] == t[1..][k - 1] && plan[k] == plan[1..][k - 1] { }
    }
  }

  /** Running a plan that starts with `s`. */
  lemma RanCons(s: Step, rest: seq<Step>, e: Exchange, t: seq<Exchange>)
    ensures Ran([s] + rest, [e] + t) <==>
      Sent(e, s) && (if Passes(s, e.reply) then Ran(rest, t) else t == [])
    ensures Ran([s] + rest, [e] + t) ==>
      Verdict([s] + rest, [e] + t) == if Passes(s, e.reply) then Verdict(rest, t) else Fail(Failure(s, e.reply))
  {
    assert ([s] + rest)[1..] == rest && ([e] + t)[1..] == t;
  }

  /** Running two plans one after the other. */
  lemma {:induction false} RanAppend(p: seq<Step>, q: seq<Step>, t: seq<Exchange>, u: seq<Exchange>)
    requires Ran(p, t) && Verdict(p, t) == Pass && Ran(q, u)
    ensures Ran(p + q, t + u) && Verdict(p + q, t + u) == Verdict(q, u)
    decreases |p|
  {
    if p == [] {
      assert p + q == q && t + u == u;
    } else {
      RanAppend(p[1..], q, t[1..], u);
      assert (p + q)[1..] == p[1..] + q;
      assert (t + u)[1..] == t[1..] + u;
      assert (p + q)[0] == p[0] && (t + u)[0] == t[0];
    }
  }

  /** A failed run of `p` is also the whole run of `p` followed by anything. */
  lemma {:induction false} RanStopsEarly(p: seq<Step>, q: seq<Step>, t: seq<Exchange>)
    requires Ran(p, t) && Verdict(p, t).Fail?
    ensures Ran(p + q, t) && Verdict(p + q, t) == Verdict(p, t)
    decreases |p|
  {
    assert p != [];
    assert (p + q)[0] == p[0] && (p + q)[1..] == p[1..] + q;
    if Passes(p[0], t[0].reply) {
      RanStopsEarly(p[1..], q, t[1..]);
    }
  }

  /** A one-step run. */
  lemma RanSingle(s: Step, e: Exchange)
    requires Sent(e, s)
    ensures Ran([s], [e])
    ensures Verdict([s], [e]) == if Passes(s, e.reply) then Pass else Fail(Failure(s, e.reply))
  {
    RanCons(s, [], e, []);
  }

  /** A passing run extended by one more step. */
  lemma RanSnoc(p: seq<Step>, t: seq<Exchange>, s: Step, e: Exchange)
    requires Ran(p, t) && Verdict(p, t) == Pass && Sent(e, s)
    ensures Ran(p + [s], t + [e])
    ensures Verdict(p + [s], t + [e]) == if Passes(s, e.reply) then Pass else Fail(Failure(s, e.reply))
  {
    RanSingle(s, e);
    RanAppend(p, [s], t, [e]);
  }
}
