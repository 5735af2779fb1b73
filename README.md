# SIM800 session engine in Dafny

This project models the command/response session engine of the `sim800c`
Python driver for the SIM800 GSM/GPRS module, and proves properties of it.
The engine has four parts:

- a command catalog, and the framing of every command written to the
  serial link;
- the response classifiers and value parsers that turn the module's free
  text into verdicts, addresses, provider names, signal levels, SMS bodies
  and HTTP bodies;
- the controller: the serial exchange with its decode retry, the
  liveness check, the boot monitor, GPRS attach, the PDP context, the
  provider and wireless set-up, IP acquisition, `connect`, `check_stuck`
  and `reset`;
- the SMS, TCP and HTTP/HTTPS flows, each a sequence of commands on the
  controller.

The serial port is abstract. The module's replies form a script, and each
entry either decodes to text or fails to decode. The clock is an integer
number of milliseconds. Every `do_at_command` call is recorded in a
transcript: the command, the pause it was made with, what it returned, how
many times the frame was written, and the clock when the call was made and
when it returned. How long a call takes is fixed by the replies it reads
(a pause after every write, and another after every failed retry); a call
without a serial handle takes no time.

The controller's operations also fix when each call is made. Inside a
fixed command sequence each call starts when the one before it returned.
The polling loops start their first round when the loop starts, and each
later round when the round before it returned plus the driver's sleep: a
tenth of a second for the liveness checks and the boot polls, one second
for the `get_ip` rounds, none for the HTTP status poll, whose timeout is
counted from the moment the session start returned. So how many rounds a
loop makes, and whether it ends by its window, is decided by the script
alone (`Session.GetIpOnErrors`). The controller's operations state the
clock they end at; the SMS and TCP/HTTP operations state only that it did
not go back.

The address the controller holds (`ip`) is written only by a `get_ip`
round whose reply carried an acceptable address. `Session.StoredIp` reads
that off a run: the address of its last such round, or the address held
before when it has none. Every operation that may reach `get_ip` states
that the address it leaves is `StoredIp` of its own calls, so nothing
else can change it.

Every method of the controller and of the flows keeps one class
invariant, `Consistent()`: each recorded call got exactly the reply and
the write count that the decode-retry rule gives on the replies left
after the calls before it, at the call's own pause; without a serial
handle, it got `NoLink` and wrote nothing. A method's `Records(t)` says
that the calls `t` were appended to the transcript, that each of them
wrote exactly when a serial handle is held, that the invariant still
holds and that the clock did not go back. So the replies a run predicate
speaks of are the module's own replies, in order
(`Controller.Sim800.RecordedAnswer`, `Controller.Sim800.AckedCheck`).

Each operation is stated over the calls it makes. Its contract says that
the calls are exactly what a run predicate describes, and how the
operation returned. Lemmas then say what such a run promises: which
commands were sent, in what order, after which checks, and how each exit
path ends.

Modules:

| file | module | contents |
|---|---|---|
| `errors.dfy` | `Errors` | the exception classes as an `Error` datatype; `Result`, `Outcome`, `Option` |
| `text.dfy` | `PyText` | the Python `str` operations the parsers use |
| `catalog.dfy` | `Catalog` | `_at_commands`, command resolution and framing |
| `classify.dfy` | `Classify` | the classifiers and value parsers |
| `transport.dfy` | `Transport` | the reply script, the decode-retry arithmetic, and plans of checked steps (`Ran`, `Verdict`) |
| `session.dfy` | `Session` | run predicates of the controller operations and of the polling loops, and lemmas about them |
| `controller.dfy` | `Controller` | class `Sim800`, the controller |
| `sms.dfy` | `SmsFlows` | class `Sms` |
| `tcpip.dfy` | `TcpIpFlows` | class `TcpIp` |

Behaviour of the driver that the model reproduces:

- The boot monitor keeps a list, not a set, and stops only when the list
  is exactly three entries long. A marker seen twice therefore counts
  twice, and a list that grows past three can end only by timeout
  (`Session.BootOvershootIsFinal`, `Session.RepeatedMarkersOvershoot`).
- The HTTP completion count is cumulative, not consecutive. Polls that do
  not report the session over never reset it (`Session.FinishedCountAdds`).
- A completed SMS send stores its time on the SMS object, and only after
  the text was written. The controller's reference time, which the
  throttle reads, never changes (`SmsFlows.Sms.SendSmsMessage`).
- A failure of the HTTP tear-down replaces the request's result with
  `GPRSHTTPError` instead of being reported on the side
  (`TcpIpFlows.CleanupEnds`).
- The CID and URL failures of `http_init` both raise the same
  `GPRSHTTPError`.
- `check_stuck` treats the radio-enable reply as failed when it is empty
  text, not when it classifies as an error.

## Model

| member | source | states |
|---|---|---|
| Catalog.ResolveIdempotent | sim800c/sim800c.py:109-155 | resolving resolved text changes nothing: no catalog text is itself a catalog name |
| Catalog.UpperTextPassesThrough | sim800c/sim800c.py:251-254 | ready-made AT text (upper-case first letter) is sent unchanged, followed by CR LF |
| Catalog.FrameInjective | sim800c/sim800c.py:251-264 | two commands give the same frame exactly when they resolve to the same text |
| Catalog.CatalogNameQuirks | sim800c/sim800c.py:130 | `close_pdp` is framed as `AT+CIPSHUT`; the unlisted name `close_tcp` is framed literally |
| Catalog.CatalogShape | sim800c/sim800c.py:115-154 | every catalog name starts lower-case and every catalog text starts with `A`, so the two never collide |
| Classify.AcceptsSpec | sim800c/sim800c.py:180-184 | a classifier accepts exactly when the reply has no `ERROR` and has the classifier's token (`\r\nOK\r\n`, `SHUT OK`, `CONNECT OK`, `SEND OK`, `>`) |
| Classify.AckAccepted | sim800c/sim800c.py:180-184 | the module's plain `AT` acknowledgement is accepted; any reply holding `ERROR` is refused by every classifier |
| Classify.AttachFlagAgrees | sim800c/sim800c.py:207-223 | reading the attach flag on the characters agrees with `int(res.split(sep)[1][0]) == 1`, including where that expression raises |
| Classify.AttachFlagAt | sim800c/sim800c.py:214 | the digit right after the first separator decides the flag: `1` accepts, any other digit refuses |
| Classify.AttachQueryReplyAccepted | sim800c/sim800c.py:207-214 | the documented `+CGATT: 1` reply reads as attached |
| Classify.AttachCommandReplyRaises | sim800c/sim800c.py:351-353 | the reply to `AT+CGATT=1` holds no space, so the check `enable_gprs` applies to it raises `IndexError` |
| Classify.AttachCommandReplyChecked | sim800c/sim800c.py:216-223 | the `=`-splitting check would accept the same reply |
| Classify.DottedQuadOfParts | sim800c/sim800c.py:407 | four groups of one to three digits joined by dots match the address pattern, and splitting on dots recovers them |
| Classify.DottedQuadShape | sim800c/sim800c.py:407 | an accepted address is its dot-separated groups rejoined, and starts and ends with a digit |
| Classify.ParseIpOfReply | sim800c/sim800c.py:405 | stripping the character set of `AT+CIFSR\r\r\n` and trailing CR/LF from an echoed reply leaves exactly the address |
| Classify.IpExample | sim800c/sim800c.py:397 | the documented reply `AT+CIFSR\r\r\n100.100.100.5\r\n` yields `100.100.100.5` |
| Classify.ProviderOfReply | sim800c/sim800c.py:333-334 | the access point name in a `+CSTT:` reply is what `get_provider` extracts |
| Classify.SignalOfReply | sim800c/sim800c.py:433 | the first field of a `+CSQ:` reply is the signal quality returned, for every value |
| Classify.LineAfterMissingMarker | sim800c/sms.py:67 | without the marker the SMS parse raises `IndexError` |
| Classify.LineAfterMarkerOf | sim800c/sms.py:67 | with the marker found once, the parse returns the line after the marker's line |
| Classify.SmsBodyExample | sim800c/sms.py:52 | the documented `AT+CMGR=1` reply yields `Test` |
| Classify.ParseHttpResponse | sim800c/tcpip.py:196-208 | the HTTP parse is total and returns empty text when the `+HTTPREAD: ` marker is missing |
| Classify.HttpBodyOfReply | sim800c/tcpip.py:202 | the body line of an `AT+HTTPREAD` reply (header and body free of line breaks, colons allowed) is what the parse returns when the marker occurs only once |
| PyText.FindSpec | sim800c/sim800c.py:181-184 | `find` is non-negative exactly when the text occurs, and then gives its first occurrence |
| PyText.SplitJoin | sim800c/sms.py:67 | splitting loses nothing: joining the pieces with the separator rebuilds the text |
| PyText.JoinSplit | sim800c/sim800c.py:407 | for a one-character separator, splitting undoes joining pieces that lack it |
| PyText.SplitPiecesFree | sim800c/tcpip.py:202 | no piece of a split holds the separator |
| PyText.LStripExact | sim800c/sim800c.py:405 | `lstrip` removes exactly a leading run of characters from the set, not a prefix string |
| PyText.RStripExact | sim800c/sim800c.py:405 | `rstrip` removes exactly a trailing run of characters from the set |
| PyText.StripBetween | sim800c/sim800c.py:333-334 | stripping both ends leaves the middle when its ends are outside the sets |
| PyText.RemoveAllConcat | sim800c/sim800c.py:334 | `replace(c, '')` distributes over concatenation |
| PyText.ParseIntRoundTrip | sim800c/sim800c.py:433 | `int(str(i)) == i` for every integer |
| PyText.ParseIntSingleChar | sim800c/sim800c.py:214 | over ASCII characters, `int(c) == 1` holds exactly for `1`, and `int(c)` fails unless `c` is a digit |
| PyText.NatToDecimalValue | sim800c/sms.py:60 | the decimal text of a number spells that number |
| Transport.AttemptsSpec | sim800c/sim800c.py:266-289 | reading stops at the first reply that decodes, within the limit, and every earlier reply failed to decode |
| Transport.ReadResultSpec | sim800c/sim800c.py:266-289 | a call returns the first reply that decodes and raises `GPRSError` only when every read failed to decode |
| Transport.FirstReadDecodes | sim800c/sim800c.py:266-271 | a reply that decodes at once is returned after a single write |
| Transport.DecodedAfterRetries | sim800c/sim800c.py:275-285 | after failed reads, the first read that decodes ends the call, having written the frame that many times |
| Transport.GivesUp | sim800c/sim800c.py:277-278 | when every read fails to decode, the call raises `GPRSError` once the window has passed |
| Transport.ReadTimeBounds | sim800c/sim800c.py:265-289 | a call takes at least its pause, and at most two pauses per write |
| Transport.QuickAnswer | sim800c/sim800c.py:266-271 | a call whose first reply decodes wrote once, returned that reply, and took exactly its pause |
| Transport.DefaultPauseReads | sim800c/sim800c.py:245 | with the default half-second pause and ten-second window, a frame is written at most twelve times |
| Transport.RanSpec | sim800c/sim800c.py:436-464 | a fixed command sequence sends its commands in order, stops at the first step that raises, and passes exactly when every step passed |
| Transport.RanAppend | sim800c/sim800c.py:436-464 | running two sequences one after the other is running their concatenation |
| Transport.RanStopsEarly | sim800c/sim800c.py:436-464 | a failed sequence is also a failed run of any longer sequence it starts |
| Transport.ClockConcat | sim800c/sim800c.py:78-82 | the clock after two runs is the clock after the second, started where the first ended |
| Transport.PacedSnoc | sim800c/sim800c.py:96-105 | a run whose rounds each start the sleep after the round before returned stays so when one more round starts that way, and the next round would start its sleep after that round returned |
| Transport.PacedConcat | sim800c/sim800c.py:446-453 | two back-to-back sequences, the second starting when the first returned, make one back-to-back sequence |
| Transport.AnsweredAfter | sim800c/sim800c.py:245-289 | in a run that follows earlier calls, each call got the decode-retry result of the replies left after the earlier calls and the calls of the run before it |
| Controller.ReadReply | sim800c/sim800c.py:266-289 | the decode-retry loop returns the reply, the write count and the time that `ReadResult`, `Reads` and `ReadTime` give |
| Controller.Sim800.constructor | sim800c/sim800c.py:47-76 | a new controller holds no serial handle, no address, and a throttle reference of zero |
| Controller.Sim800.DoAtCommand | sim800c/sim800c.py:245-289 | one call: the decode-retry result on the module's next replies, made at the current clock and returning after the time the decode-retry rule gives; the call recorded with its pause, write count and both clock stamps, and the invariant kept; with no serial handle it raises, writes nothing and takes no time |
| Controller.Sim800.RecordedAnswer | sim800c/sim800c.py:245-289 | after any run that kept the invariant, the `k`-th recorded call got the decode-retry result of the replies left after the calls before it, or `NoLink` without a handle |
| Controller.Sim800.PlanStep | sim800c/sim800c.py:245-289 | one checked step of a sequence, sent with the step's own text and pause, made when the step before it returned; the calls so far are a run of the sequence's first steps, the clock advances by exactly the call's read time, and the invariant is kept |
| Controller.Sim800.Single | sim800c/sim800c.py:245-289 | one checked step on its own: its one call ran that step, made at once, and the clock ends when it returned, advanced by exactly its read time |
| Controller.Sim800.AtCheckReady | sim800c/sim800c.py:157-178 | no serial handle: raises `GPRSATCheckError` without writing; otherwise one `AT`, which must classify OK |
| Controller.Sim800.AckedCheck | sim800c/sim800c.py:157-178 | with a handle held and the module's next reply its plain `AT` acknowledgement, the liveness check passes |
| Controller.Sim800.InitSerial | sim800c/sim800c.py:84-107 | opens the port, then repeats the liveness check, swallowing failures, the first at once and each other a tenth of a second after the one before returned, until one passes or the window has passed; the clock ends at the last reply, plus the last sleep on a timeout |
| Controller.Sim800.MonitorBoot | sim800c/sim800c.py:186-205 | polls `AT`, the first at once and each other a tenth of a second after the one before returned, appending every marker each reply shows, until the list is exactly three long; `GPRSError` past the window; the clock ends after the last sleep, or at the reply that raised |
| Controller.Sim800.GprsOk | sim800c/sim800c.py:291-299 | `AT+CGATT?` must classify OK, else `GPRSGPRSCheckError` |
| Controller.Sim800.EnableGprs | sim800c/sim800c.py:346-356 | the attach command is sent only after the attach query's own check error, and its attach flag must read 1 |
| Controller.Sim800.DisableGprs | sim800c/sim800c.py:358-363 | raises `GPRSError` when the detach reply's attach flag reads 1 |
| Controller.Sim800.DisablePdp | sim800c/sim800c.py:365-369 | raises `GPRSError` when the module confirms `SHUT OK` |
| Controller.Sim800.EnablePdp | sim800c/sim800c.py:371-376 | `AT+CIPMODE=0` must classify OK, else `GPRSSetProviderError` |
| Controller.Sim800.SetProvider | sim800c/sim800c.py:338-344 | `AT+CSTT=<provider>` must classify OK, else `GPRSSetProviderError` |
| Controller.Sim800.EnableWireless | sim800c/sim800c.py:378-387 | `AT+CIICR` fails only on `ERROR` |
| Controller.Sim800.GetProvider | sim800c/sim800c.py:325-336 | returns the parsed provider only from a reply that classified OK |
| Controller.Sim800.GetSignalStrength | sim800c/sim800c.py:420-434 | the parsed quality when `AT+CSQ` classifies OK, else `GPRSError` |
| Controller.Sim800.GetIp | sim800c/sim800c.py:393-418 | retries, the first round at once and each other one second after the round before returned, until an address is accepted, then stores and returns it; past the window it raises `GPRSGetIpError` and the stored address is unchanged; the address held afterwards is `StoredIp` of the rounds; the clock ends at the last reply |
| Controller.Sim800.IpErrorsRetried | sim800c/sim800c.py:393-418 | on a held handle whose next eight replies read `ERROR`, `get_ip` sends its query eight times, a second after each reply, raises `GPRSGetIpError` eleven seconds after it started, and leaves the stored address as it was |
| Controller.Sim800.ConnectedOk | sim800c/sim800c.py:301-311 | liveness check, attach query and `get_ip`, each part starting when the one before returned, stopping at the first exception; passing leaves an address stored, failing leaves the address as it was, and in every case the address held is the one the `get_ip` rounds stored (`StoredIp`); the clock ends at the last reply |
| Controller.Sim800.Configure | sim800c/sim800c.py:446-453 | PDP mode, provider and wireless, stopping at the first exception; the clock ends at the last reply |
| Controller.Sim800.BringUp | sim800c/sim800c.py:446-453 | attach, PDP mode, provider and wireless, stopping at the first exception |
| Controller.Sim800.Connect | sim800c/sim800c.py:436-466 | the seven steps of `connect` in order, each starting when the one before returned, re-raising the first exception; passing leaves an address stored, and the address held is the one its `get_ip` rounds stored (`StoredIp`), else the old one; the clock ends at the last reply |
| Controller.Sim800.CheckStuck | sim800c/sim800c.py:468-480 | stuck exactly when the IP reply fails the OK check and the wireless reply is empty |
| Controller.Sim800.ResetGprs | sim800c/sim800c.py:509-515 | `disable_pdp` then `disable_gprs`, re-raising the first exception |
| Controller.Sim800.ResetHardware | sim800c/sim800c.py:517-541 | never raises; with GPIO present it sends one pulse train and takes three seconds, otherwise nothing happens |
| Controller.Sim800.Restart | sim800c/sim800c.py:495-503 | opens the port, watches the boot (from where the port checks ended) and connects when asked (from where the boot watch ended), re-raising the first exception; the clock stops where the part that ended the run stopped it; the address held is the one its `get_ip` rounds stored, and without `enable_gprs` it is left as it was |
| Controller.Sim800.Reset | sim800c/sim800c.py:482-507 | drops the handle, pulses the module, then restarts from the moment the pulse ends; the pulse cannot stop the restart; the address held is the one its `get_ip` rounds stored, and without `enable_gprs` it is left as it was |
| Controller.Sim800.ResetSmsTextInputMode | sim800c/sim800c.py:543-549 | writes Ctrl-Z; only a transport error propagates |
| Session.IpOfReply | sim800c/sim800c.py:401-410 | a round on an echoed reply carrying an address accepts that address |
| Session.IpOfExample | sim800c/sim800c.py:397 | the documented reply is accepted with `100.100.100.5` |
| Session.IpRoundOutcome | sim800c/sim800c.py:401-418 | a round that is not retried raised in transport or carried an address |
| Session.GetIpEnds | sim800c/sim800c.py:393-418 | short of a transport error, `get_ip` fails only with `GPRSGetIpError` past the window, and returns an address only from its last round, every earlier round retried |
| Session.ErrorRound | sim800c/sim800c.py:401-418 | while every reply reads `ERROR` at once, round `k` of `get_ip` reads one reply, takes half a second, and starts one and a half seconds after the round before it |
| Session.GetIpOnErrors | sim800c/sim800c.py:393-418 | when the next eight replies all read `ERROR`, `get_ip` makes exactly eight rounds, one and a half seconds apart, and raises `GPRSGetIpError` eleven seconds after it started |
| Session.MarkersInSpec | sim800c/sim800c.py:201-204 | one poll adds exactly the required markers its reply holds, each once, in the monitor's order |
| Session.SeenGrows | sim800c/sim800c.py:194-203 | the list of seen markers only grows |
| Session.BootOvershootIsFinal | sim800c/sim800c.py:195 | once the list is longer than three, no later poll brings it back to three |
| Session.AllMarkersInOnePoll | sim800c/sim800c.py:195-203 | a poll that shows all three markers completes the boot |
| Session.RepeatedMarkersOvershoot | sim800c/sim800c.py:195-203 | two polls that each show the same two markers leave the boot unable to complete |
| Session.FinishedCountAdds | sim800c/tcpip.py:92-102 | the completion count of a run is the sum of the counts of its parts, so it is never reset |
| Session.FinishedCountBound | sim800c/tcpip.py:97-100 | each poll adds at most one to the completion count |
| Session.AwaitNeedsFifty | sim800c/tcpip.py:94-105 | a status poll that ends before the timeout has seen fifty completion reports and made at least fifty polls |
| Session.SmsThrottleWindow | sim800c/sim800c.py:313-323 | a send is blocked up to and including the end of the throttle interval and not after; once lifted it stays lifted |
| Session.AtCheckLinked | sim800c/sim800c.py:166-178 | with a handle, the liveness check is one `AT`, and it passes exactly when that reply classifies OK |
| Session.PlanSnoc | sim800c/sim800c.py:436-464 | one more call after a passing prefix of a sequence runs one more step; when it fails or is the last step, the whole sequence has run |
| Session.FlushPassEnds | sim800c/tcpip.py:277-280 | a flush that passed ended with an `AT` whose reply classified OK |
| Session.FlushOutOfFuel | sim800c/tcpip.py:277-280 | rounds that never classify OK exhaust the bound |
| Session.EnableGprsOrder | sim800c/sim800c.py:346-356 | `AT+CGATT=1` is written exactly when the query's reply decoded and failed the OK check; it then passes exactly when its flag reads 1 |
| Session.ConnectedOkPasses | sim800c/sim800c.py:301-311 | a passing `connected_ok` made an accepted liveness check and attach query and ended with a `get_ip` round that carried an address, which is the address then held |
| Session.ConnectPasses | sim800c/sim800c.py:436-466 | a passing `connect` opened with an accepted liveness check and the attach query, and ended with a `get_ip` round that carried an address, which is the address then held |
| Session.InitAndBootSendAt | sim800c/sim800c.py:84-107 | opening the port and watching the boot send nothing but `AT` |
| Session.ResetSends | sim800c/sim800c.py:482-507 | without `enable_gprs`, a reset sends only `AT` and keeps the held address; with it, a passing reset ended with an accepted `get_ip`, whose address is the one then held |
| Session.GetIpStores | sim800c/sim800c.py:407-409 | the address held after a run of `get_ip` is the one it returned when it passed, and the old one when it raised |
| Session.StoredIpConcat | sim800c/sim800c.py:407-409 | the address held after two runs is that of the second started from the first's |
| Session.StoredLast | sim800c/sim800c.py:407-409 | calls that end with a `get_ip` round carrying an address leave that address held |
| SmsFlows.SmsPrefixes | sim800c/sms.py:36-60 | the number and read commands start with their catalog texts |
| SmsFlows.SmsFrames | sim800c/sms.py:36-38 | the number and read frames are written as built |
| SmsFlows.SendOrder | sim800c/sms.py:31-44 | the number follows an accepted text mode, the text follows the `>` prompt, and the send completes exactly when the text was written |
| SmsFlows.ReadOrder | sim800c/sms.py:54-69 | `AT+CMGR=<n>` follows an accepted text mode; the parsed message is returned exactly when the read was accepted, and only from a reply with the marker |
| SmsFlows.DeleteOrder | sim800c/sms.py:75-82 | `AT+CMGDA` follows an accepted text mode; it passes exactly when both replies were accepted |
| SmsFlows.Sms.constructor | sim800c/sms.py:18-19 | a new SMS object refers to its controller and has no send time |
| SmsFlows.Sms.SendSmsMessage | sim800c/sms.py:21-45 | while throttled it raises `GPRSSMSError` and writes nothing; a completed send stores its time on the SMS object only |
| SmsFlows.Sms.ReadSmsMessage | sim800c/sms.py:47-69 | text mode, then the read, then the parse of the read's reply |
| SmsFlows.Sms.DeleteAllSmsMessages | sim800c/sms.py:71-82 | text mode, then the deletion, each checked |
| TcpIpFlows.TcpPrefixes | sim800c/tcpip.py:39-76 | the connect and length commands start with their catalog texts |
| TcpIpFlows.HttpPrefixes | sim800c/tcpip.py:146-147 | the URL and data-size commands start with their catalog texts |
| TcpIpFlows.TcpSendSteps | sim800c/tcpip.py:59-81 | `AT+CIPSTART` first; the length and message only after `CONNECT OK`, else `GPRSTCPError`; completes exactly when all five calls were made |
| TcpIpFlows.TcpSendOrder | sim800c/tcpip.py:59-81 | a completed send passed `connected_ok` and then wrote connect, length, message, `close_tcp` and `AT+CIPSHUT` in order |
| TcpIpFlows.HttpInitOrder | sim800c/tcpip.py:121-155 | the URL is written only after the CID reply was accepted; it returns exactly when the URL reply was accepted too |
| TcpIpFlows.HttpsInitOrder | sim800c/tcpip.py:157-194 | CID, URL and `AT+HTTPSSL=1` are each written only after the previous was accepted; it returns exactly when all three were |
| TcpIpFlows.Finally | sim800c/tcpip.py:228-232 | an exception of the clean-up replaces the body's result; otherwise the body's result stands |
| TcpIpFlows.CleanupEnds | sim800c/tcpip.py:111-119 | the tear-down writes `AT+HTTPTERM`, then `AT+SAPBR=0,1` unless that failed; the result survives exactly when both calls returned, else `GPRSHTTPError` |
| TcpIpFlows.CleanupTail | sim800c/tcpip.py:229-232 | whatever ran before it, a request ends with its tear-down |
| TcpIpFlows.GetRequestOrder | sim800c/tcpip.py:217-221 | a GET request made the start, at least one status poll and the read, in that order |
| TcpIpFlows.HttpGetBodyOrder | sim800c/tcpip.py:214-225 | a returning GET ran the set-up, start, poll and read; it yields a page exactly when start and read were accepted, and the page is the parse of the read |
| TcpIpFlows.HttpGetCleanup | sim800c/tcpip.py:210-232 | every `http_get` ends with the tear-down, and one that returns ended with both tear-down calls |
| TcpIpFlows.HttpPostOrder | sim800c/tcpip.py:238-255 | a returning POST ran the set-up, then status, size, data and action, and returns whether data and action were both accepted |
| TcpIpFlows.HttpPostCleanup | sim800c/tcpip.py:234-262 | every `http_post` ends with the tear-down, and one that returns ended with both calls |
| TcpIpFlows.HttpsGetBodyOrder | sim800c/tcpip.py:268-284 | a returning HTTPS GET yields a page exactly when its start was accepted; the page is the parse of the read's reply followed by every flush reply |
| TcpIpFlows.HttpsGetCleanup | sim800c/tcpip.py:264-291 | every `https_get` ends with the tear-down, and one that returns ended with both calls |
| TcpIpFlows.TcpIp.constructor | sim800c/tcpip.py:24-32 | the controller and the two timeouts are stored |
| TcpIpFlows.TcpIp.ConnectTcp | sim800c/tcpip.py:34-48 | one `AT+CIPSTART`, whose reply must show `CONNECT OK` |
| TcpIpFlows.TcpIp.DisconnectTcp | sim800c/tcpip.py:50-57 | `close_tcp` and `AT+CIPSHUT`, neither judged |
| TcpIpFlows.TcpIp.Converse | sim800c/tcpip.py:73-81 | once `connected_ok` returned: connect, then length and message only after `CONNECT OK`, then the disconnect |
| TcpIpFlows.TcpIp.SendPayload | sim800c/tcpip.py:74-80 | the length announcement and then the message, neither judged |
| TcpIpFlows.TcpIp.SendTcpMessage | sim800c/tcpip.py:59-81 | the calls are a run of `send_tcp_message`: `connected_ok` started at the method's own clock, so its `get_ip` rounds are timed as in `GetIp`; the address held afterwards is the one those rounds stored, whatever the message reads |
| TcpIpFlows.TcpIp.AwaitGetSessionComplete | sim800c/tcpip.py:83-109 | polls the status, the first at once and each other as soon as the one before returned, until fifty completion reports or the timeout counted from its start; a timeout does not raise; the clock ends at the last reply |
| TcpIpFlows.TcpIp.HttpDeinit | sim800c/tcpip.py:111-119 | two calls; any exception becomes `GPRSHTTPError` |
| TcpIpFlows.TcpIp.BearerSetUp | sim800c/tcpip.py:127-136 | the five bearer and context commands, none judged |
| TcpIpFlows.TcpIp.HttpInit | sim800c/tcpip.py:121-155 | the calls are a run of the `http_init` sequence |
| TcpIpFlows.TcpIp.HttpParamsSet | sim800c/tcpip.py:138-153 | SSL and redirects off, then the CID and the URL, each of the last two checked, stopping at the first refused |
| TcpIpFlows.TcpIp.HttpsInit | sim800c/tcpip.py:157-194 | the calls are a run of the `https_init` sequence |
| TcpIpFlows.TcpIp.HttpsParamsSet | sim800c/tcpip.py:174-192 | the CID, the URL and SSL on, each checked, stopping at the first refused |
| TcpIpFlows.TcpIp.GetRequest | sim800c/tcpip.py:217-221 | start, then the status poll counted from the moment the start returned, then the read; returns the start's classification and the read's reply |
| TcpIpFlows.TcpIp.HttpGetBody | sim800c/tcpip.py:214-228 | the `try` block of `http_get`, with the status poll timed from the session start's return |
| TcpIpFlows.TcpIp.HttpGet | sim800c/tcpip.py:210-232 | the `try` block, then the tear-down on every path; the status poll is timed from the session start's return |
| TcpIpFlows.TcpIp.PostRequest | sim800c/tcpip.py:244-256 | status, size, data and action, each only after the one before was answered; returns whether data and action were both accepted |
| TcpIpFlows.TcpIp.HttpPostBody | sim800c/tcpip.py:238-257 | the `try` block of `http_post` |
| TcpIpFlows.TcpIp.HttpPost | sim800c/tcpip.py:234-262 | the `try` block, then the tear-down on every path |
| TcpIpFlows.TcpIp.Flush | sim800c/tcpip.py:274-280 | sends `AT` until a reply classifies OK, and returns the data with every flush reply appended |
| TcpIpFlows.TcpIp.HttpsGetBody | sim800c/tcpip.py:268-285 | the `try` block of `https_get`, with the status poll timed from the session start's return |
| TcpIpFlows.TcpIp.HttpsGet | sim800c/tcpip.py:264-291 | the `try` block, then the tear-down on every path; the status poll is timed from the session start's return |
| TcpIpFlows.TcpIp.HttpsPost | sim800c/tcpip.py:293-298 | raises `GPRSHTTPError` on every input, writing nothing |

## Left out

- The serial port itself (`serial.Serial`, `write`, `read(in_waiting)`, `isOpen`, `close`) and byte decoding. They are replaced by the reply script and the transcript. Whether the port opens is the constant `portAvailable`.
- Wall-clock time and `sleep`. The clock is an integer in milliseconds, so the float settings (600.0 s throttle, 0.5 s pause) become whole milliseconds.
- The `RPi.GPIO` calls and the architecture probe. Whether the GPIO library is present is the constant `gpioPresent`, and a pulse train is counted in `pulses`.
- Logging throughout, and the free-text messages of the exceptions. Callers distinguish failures only by class.
- `sim800c/config.py` and `sim800c/__init__.py`. They only load settings and detect the environment; the defaults are written as constants.
- `disable_wireless`: it is a no-op in the driver and is not part of this model.
- `Controller.Sim800.constructor`: does not run the `bootup=True` reset; a caller runs `Reset(true)` after construction.
- `Controller.Sim800.DoAtCommand`: requires a positive pause, because every caller in the driver passes one. The encode failure (`GPRSATCheckError`) is raised only for a command holding a lone surrogate; a Dafny string (Unicode scalar values) cannot hold one, so it is not modelled.
- `Controller.Sim800.AtCheckReady`: `serial_init_at_checks` is fixed at its value of 1, so the check is a single call.
- `Controller.Sim800.ConnectedOk`: models only the default `enable_ip=True`, which is what every caller passes.
- `TcpIpFlows.TcpIp.Flush`: the driver's flush loop has no bound. The model stops after `fuel` rounds with `FlushFuelExhausted`, so a flush that never sees an OK reply is not modelled.
- `TcpIpFlows.TcpIp.HttpsGetBody`: inherits the `fuel` bound of `Flush`.
- `TcpIpFlows.TcpIp.HttpsGet`: inherits the `fuel` bound of `Flush`.
- `TcpIpFlows.TcpIp.ConnectTcp`: the port is any integer; its text is `str(port)`. It requires a positive pause, so `tcp_connect_pause=0` is not modelled.
- `PyText.ParseInt`: replies are taken to be ASCII. Python's `int()` also accepts other Unicode decimal digits and strips Unicode white space; the model accepts ASCII digits and ASCII white space only.
- `PyText.ParseIntSingleChar`: for the same reason, its "only `1`" and "fails unless a digit" hold of ASCII characters; Python's `int()` also reads a non-ASCII decimal digit.
- `Classify.IsDottedQuad`: `\d` in the address pattern is taken as an ASCII digit; Python's `re` also matches other Unicode decimal digits there.
- `SmsFlows.Sms` and `TcpIpFlows.TcpIp`: the clock after each of their methods is stated only as not earlier than before, and only two things in them are tied to the clock: the `connected_ok` that `send_tcp_message` opens with, which starts at the method's own clock, and the HTTP status poll, which starts when the session start returned. The other calls of these flows are not stated to follow each other without a gap.
- `SmsFlows.Sms.SendSmsMessage`: requires a positive pause after the text, because the driver's default is three seconds.
