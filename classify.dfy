/**
 * Response classifiers and value parsers of the SIM800 driver.
 *
 * All of them read the decoded text of one module reply.  Every classifier
 * rejects a reply that contains `ERROR`; otherwise it looks for its token.
 * The parsers are the driver's inline `split`/`strip` expressions: where the
 * Python expression indexes a piece that is not there, or converts text that
 * is not an integer, the parser returns the exception it would raise.
 */
module Classify {
  import opened Errors
  import opened PyText

  const ERROR_TOKEN: string := "ERROR"

  /** The response checks of the driver; `NoError` is the inline check of `enable_wireless`. */
  datatype Classifier = AtOk | PdpShutOk | TcpConnectOk | TcpSendOk | SmsSendReady | NoError

  /** The token a classifier looks for once `ERROR` is ruled out (`NoError` needs none). */
  function Token(c: Classifier): string {
    match c
    case AtOk => "\r\nOK\r\n"
    case PdpShutOk => "SHUT OK"
    case TcpConnectOk => "CONNECT OK"
    case TcpSendOk => "SEND OK"
    case SmsSendReady => ">"
    case NoError => ""
  }

  /**
   * `at_response_ok`, `pdp_disable_response_ok`, `tcp_connect_response_ok`,
   * `tcp_send_response_ok`, `sms_send_ready_response_ok` and the inline
   * check of `enable_wireless`.
   */
  function Accepts(c: Classifier, res: string): bool {
    if Find(res, ERROR_TOKEN) != -1 then false
    else c == NoError || Find(res, Token(c)) != -1
  }

  /** A reply is accepted exactly when it holds no `ERROR` and holds the classifier's token. */
  lemma AcceptsSpec(c: Classifier, res: string)
    ensures Accepts(c, res) <==> !Occurs(res, ERROR_TOKEN) && Occurs(res, Token(c))
  {
    FindSpec(res, ERROR_TOKEN);
    FindSpec(res, Token(c));
    if c == NoError {
      assert OccursAt(res, "", 0);
    }
  }

  /** The module's plain acknowledgement of `AT` is accepted; any reply with `ERROR` is refused by every check. */
  lemma AckAccepted(c: Classifier, res: string)
    ensures Accepts(AtOk, "AT\r\r\nOK\r\n")
    ensures Occurs(res, ERROR_TOKEN) ==> !Accepts(c, res)
  {
    var ack := "AT\r\r\nOK\r\n";
    MissingCharNoOccurrence(ack, ERROR_TOKEN, 0);
    assert OccursAt(ack, "\r\nOK\r\n", 3);
    AcceptsSpec(AtOk, ack);
    AcceptsSpec(c, res);
  }

  // ------------------------------------------------- the GPRS attach flag

  /** `s.split(c)[1][0]`: the first character of the second piece. */
  function SecondPieceHead(s: string, c: char): Result<char> {
    var parts := Split(s, [c]);
    if |parts| < 2 || parts[1] == [] then Err(IndexError) else Ok(parts[1][0])
  }

  /**
   * The shared body of `gprs_enable_response_ok` (split on a space) and
   * `gprs_check_response_ok` (split on `=`), read on the reply's
   * characters: a reply with `ERROR` is refused; otherwise the character
   * right after the first separator decides, `1` accepts, another digit
   * refuses, and anything else (no separator, nothing after it, a second
   * separator, a non-digit) raises.
   */
  function AttachFlagOk(res: string, sep: char): Result<bool> {
    if Find(res, ERROR_TOKEN) != -1 then Ok(false)
    else
      var i := Find(res, [sep]);
      if i < 0 || i + 1 >= |res| || res[i + 1] == sep then Err(IndexError)
      else if !IsDigit(res[i + 1]) then Err(ValueError)
      else Ok(res[i + 1] == '1')
  }

  /** The driver's expression itself: `int(res.split(sep)[1][0]) == 1` behind the `ERROR` check. */
  function AttachFlagExpr(res: string, sep: char): Result<bool> {
    if Find(res, ERROR_TOKEN) != -1 then Ok(false)
    else match SecondPieceHead(res, sep)
      case Err(e) => Err(e)
      case Ok(ch) =>
        match ParseInt([ch])
        case Err(e) => Err(e)
        case Ok(v) => Ok(v == 1)
  }

  /** `gprs_enable_response_ok`: the character after the first space must be `1`. */
  function GprsEnableOk(res: string): Result<bool> {
    AttachFlagOk(res, ' ')
  }

  /** `gprs_check_response_ok`: the character after the first `=` must be `1`. */
  function GprsCheckOk(res: string): Result<bool> {
    AttachFlagOk(res, '=')
  }

  lemma SplitHeadOfNonEmpty(s: string, c: char)
    requires s != []
    ensures var h := Split(s, [c])[0];
      if s[0] == c then h == [] else h != [] && h[0] == s[0]
  {
    var i := Find(s, [c]);
    if s[0] == c {
      assert OccursAt(s, [c], 0);
    } else if i >= 0 {
      assert s[i..i + 1][0] == s[i];
      assert i != 0;
    }
  }

  /** The second piece starts right after the first separator. */
  lemma SecondPieceHeadSpec(s: string, c: char)
    ensures var i := Find(s, [c]);
      SecondPieceHead(s, c) ==
        if i < 0 || i + 1 >= |s| || s[i + 1] == c then Err(IndexError) else Ok(s[i + 1])
  {
    var i := Find(s, [c]);
    if i >= 0 {
      var rest := s[i + 1..];
      SplitFirstPiece(s, [c]);
      assert Split(s, [c])[1] == Split(rest, [c])[0];
      if rest == [] {
        assert Split(rest, [c])[0] == [] by { MissingCharNoOccurrence(rest, [c], 0); }
      } else {
        SplitHeadOfNonEmpty(rest, c);
      }
    }
  }

  /** Reading the flag on the characters agrees with splitting and converting as the driver does. */
  lemma AttachFlagAgrees(res: string, sep: char)
    ensures AttachFlagOk(res, sep) == AttachFlagExpr(res, sep)
  {
    SecondPieceHeadSpec(res, sep);
    var i := Find(res, [sep]);
    if i >= 0 && i + 1 < |res| {
      ParseIntSingleChar(res[i + 1]);
    }
  }

  /** A digit right after the first separator decides the attach flag. */
  lemma AttachFlagAt(a: string, sep: char, b: string)
    requires sep !in a && b != [] && IsDigit(b[0]) && b[0] != sep
    requires !Occurs(a + [sep] + b, ERROR_TOKEN)
    ensures AttachFlagOk(a + [sep] + b, sep) == Ok(b[0] == '1')
  {
    FindAfterPrefix(a, [sep], b);
  }

  /** The attach query's documented reply reads as attached. */
  lemma AttachQueryReplyAccepted()
    ensures GprsEnableOk("AT+CGATT?\r\r\n+CGATT: 1\r\n\r\nOK\r\n") == Ok(true)
  {
    var a, b := "AT+CGATT?\r\r\n+CGATT:", "1\r\n\r\nOK\r\n";
    assert "AT+CGATT?\r\r\n+CGATT: 1\r\n\r\nOK\r\n" == a + [' '] + b;
    MissingCharNoOccurrence(a + [' '] + b, ERROR_TOKEN, 0);
    AttachFlagAt(a, ' ', b);
  }

  /**
   * The reply to the attach command itself holds no space, so the check
   * that `enable_gprs` applies to it raises `IndexError`; the check that
   * splits on `=` would have accepted it.
   */
  lemma AttachCommandReplyRaises()
    ensures GprsEnableOk("AT+CGATT=1\r\r\nOK\r\n") == Err(IndexError)
  {
    var res := "AT+CGATT=1\r\r\nOK\r\n";
    MissingCharNoOccurrence(res, ERROR_TOKEN, 0);
    MissingCharNoOccurrence(res, " ", 0);
  }

  lemma AttachCommandReplyChecked()
    ensures GprsCheckOk("AT+CGATT=1\r\r\nOK\r\n") == Ok(true)
  {
    var a, b := "AT+CGATT", "1\r\r\nOK\r\n";
    assert "AT+CGATT=1\r\r\nOK\r\n" == a + ['='] + b;
    MissingCharNoOccurrence(a + ['='] + b, ERROR_TOKEN, 0);
    AttachFlagAt(a, '=', b);
  }

  // ------------------------------------------------------------ IP address

  /** The characters `get_ip` strips from the front: the SET of characters of `AT+CIFSR\r\r\n`. */
  const CIFSR_CHARS: string := "AT+CIFSR\r\r\n"

  /** `res.lstrip('AT+CIFSR\r\r\n').rstrip('\r\n')` */
  function ParseIp(res: string): string {
    RStrip(LStrip(res, CIFSR_CHARS), CRLF)
  }

  predicate IsOctetText(p: string) {
    1 <= |p| <= 3 && AllDigits(p)
  }

  /** The pattern `^\d{1,3}\.\d{1,3}\.\d{1,3}\.\d{1,3}$` on ASCII digits. */
  predicate IsDottedQuad(s: string) {
    var parts := Split(s, ".");
    |parts| == 4 && forall k :: 0 <= k < 4 ==> IsOctetText(parts[k])
  }

  /** Four 1-3 digit groups joined by dots form an address, and splitting recovers them. */
  lemma DottedQuadOfParts(parts: seq<string>)
    requires |parts| == 4 && forall k :: 0 <= k < 4 ==> IsOctetText(parts[k])
    ensures IsDottedQuad(Join(parts, "."))
    ensures Split(Join(parts, "."), ".") == parts
  {
    forall k | 0 <= k < |parts| ensures '.' !in parts[k] {
      assert forall j :: 0 <= j < |parts[k]| ==> IsDigit(parts[k][j]);
    }
    JoinSplit(parts, '.');
  }

  lemma JoinFour(p: seq<string>, sep: string)
    requires |p| == 4
    ensures Join(p, sep) == p[0] + sep + p[1] + sep + p[2] + sep + p[3]
  {
    assert p[3..] == [p[3]];
    assert p[2..] == [p[2]] + p[3..];
    assert p[1..] == [p[1]] + p[2..];
    assert p == [p[0]] + p[1..];
    JoinCons(p[2], p[3..], sep);
    JoinCons(p[1], p[2..], sep);
    JoinCons(p[0], p[1..], sep);
  }

  /** The ends of four joined pieces are the ends of the first and the last piece. */
  lemma JoinFourEnds(p: seq<string>, sep: string)
    requires |p| == 4 && p[0] != [] && p[3] != []
    ensures var s := Join(p, sep); |s| >= |p[0]| + |p[3]| && s[0] == p[0][0] && s[|s| - 1] == p[3][|p[3]| - 1]
  {
    JoinFour(p, sep);
    var s := Join(p, sep);
    var mid := sep + p[1] + sep + p[2] + sep;
    assert s == p[0] + mid + p[3];
  }

  /** An accepted address is four digit groups joined by dots; it starts and ends with a digit. */
  lemma DottedQuadShape(s: string)
    requires IsDottedQuad(s)
    ensures s == Join(Split(s, "."), ".")
    ensures |s| >= 2 && IsDigit(s[0]) && IsDigit(s[|s| - 1])
  {
    var p := Split(s, ".");
    SplitJoin(s, ".");
    assert IsOctetText(p[0]) && IsOctetText(p[3]);
    JoinFourEnds(p, ".");
  }

  /** The address a well-formed reply carries is what `get_ip` extracts. */
  lemma ParseIpOfReply(ip: string, tail: string)
    requires IsDottedQuad(ip)
    requires forall i :: 0 <= i < |tail| ==> tail[i] in CRLF
    ensures ParseIp(CIFSR_CHARS + ip + tail) == ip
  {
    DottedQuadShape(ip);
    assert CIFSR_CHARS + ip + tail == CIFSR_CHARS + (ip + tail);
    LStripExact(CIFSR_CHARS, ip + tail, CIFSR_CHARS);
    RStripExact(ip, tail, CRLF);
  }

  /** The address the module's documentation shows. */
  const EXAMPLE_IP: string := "100.100.100.5"

  lemma ExampleAddress()
    ensures IsDottedQuad(EXAMPLE_IP)
  {
    var parts := ["100", "100", "100", "5"];
    JoinFour(parts, ".");
    assert Join(parts, ".") == EXAMPLE_IP;
    assert IsOctetText(parts[0]) && IsOctetText(parts[3]);
    DottedQuadOfParts(parts);
  }

  /** The documented reply `AT+CIFSR\r\r\n100.100.100.5\r\n` yields `100.100.100.5`. */
  lemma IpExample()
    ensures ParseIp(CIFSR_CHARS + EXAMPLE_IP + CRLF) == EXAMPLE_IP
  {
    ExampleAddress();
    ParseIpOfReply(EXAMPLE_IP, CRLF);
  }

  // -------------------------------------------------------------- provider

  const CSTT_LEFT_CHARS: string := "AT+CSTT?\r\r\n+CSTT: "
  const CSTT_RIGHT_CHARS: string := "\r\n\r\nOK\r\n"

  /** `res.lstrip('AT+CSTT?\r\r\n+CSTT: ').rstrip('\r\n\r\nOK\r\n').split(',')[0].replace('"', '')` */
  function ParseProvider(res: string): string {
    var core := RStrip(LStrip(res, CSTT_LEFT_CHARS), CSTT_RIGHT_CHARS);
    RemoveAll(Split(core, ",")[0], '"')
  }

  /** Stripping a `+CSTT:` reply leaves its quoted fields. */
  lemma ProviderFields(fields: string)
    requires fields != [] && fields[0] == '"' && fields[|fields| - 1] == '"'
    ensures RStrip(LStrip(CSTT_LEFT_CHARS + fields + CSTT_RIGHT_CHARS, CSTT_LEFT_CHARS), CSTT_RIGHT_CHARS) == fields
  {
    assert '"' !in CSTT_LEFT_CHARS && '"' !in CSTT_RIGHT_CHARS;
    StripBetween(CSTT_LEFT_CHARS, fields, CSTT_RIGHT_CHARS);
  }

  /** The first comma-separated field loses its quotes. */
  lemma ProviderFirstField(apn: string, others: string)
    requires ',' !in apn && '"' !in apn
    ensures RemoveAll(Split("\"" + apn + "\"" + [','] + others, ",")[0], '"') == apn
  {
    var quoted := "\"" + apn + "\"";
    SplitAtChar(quoted, ',', others);
    RemoveAllConcat("\"", apn, '"');
    RemoveAllConcat("\"" + apn, "\"", '"');
    RemoveAllAbsent(apn, '"');
  }

  /** The access point name in a `+CSTT:` reply is what `get_provider` returns. */
  lemma ProviderOfReply(apn: string)
    requires ',' !in apn && '"' !in apn
    ensures ParseProvider(CSTT_LEFT_CHARS + "\"" + apn + "\",\"\",\"\"" + CSTT_RIGHT_CHARS) == apn
  {
    var fields := "\"" + apn + "\"" + [','] + "\"\",\"\"";
    assert CSTT_LEFT_CHARS + "\"" + apn + "\",\"\",\"\"" + CSTT_RIGHT_CHARS == CSTT_LEFT_CHARS + fields + CSTT_RIGHT_CHARS;
    ProviderFields(fields);
    ProviderFirstField(apn, "\"\",\"\"");
  }

  // ---------------------------------------------------------------- signal

  /** `int(res.split('\r\n')[1].split(' ')[1].split(',')[0])` */
  function ParseSignal(res: string): Result<int> {
    var lines := Split(res, CRLF);
    if |lines| < 2 then Err(IndexError)
    else
      var words := Split(lines[1], " ");
      if |words| < 2 then Err(IndexError)
      else ParseInt(Split(words[1], ",")[0])
  }

  /** The second line of a reply whose first line holds no LF. */
  lemma SecondLine(echo: string, line: string, tail: string)
    requires '\n' !in echo && '\n' !in line
    ensures var lines := Split(echo + CRLF + line + CRLF + tail, CRLF); |lines| >= 2 && lines[1] == line
  {
    assert echo + CRLF + line + CRLF + tail == echo + CRLF + (line + CRLF + tail);
    SplitAtCrlf(echo, line + CRLF + tail);
    SplitAtCrlf(line, tail);
  }

  /** The first comma field of the second word of `+CSQ: <digits>,<ber>`. */
  lemma SignalField(digits: string, ber: string)
    requires digits != [] && AllDigits(digits) && ' ' !in ber
    ensures var words := Split("+CSQ:" + [' '] + (digits + [','] + ber), " ");
      |words| >= 2 && Split(words[1], ",")[0] == digits
  {
    var field := digits + [','] + ber;
    SplitAtChar("+CSQ:", ' ', field);
    assert ' ' !in digits && ',' !in digits by {
      assert forall j :: 0 <= j < |digits| ==> IsDigit(digits[j]);
    }
    assert ' ' !in field;
    MissingCharNoOccurrence(field, " ", 0);
    SplitAtChar(digits, ',', ber);
  }

  /** The first field of a `+CSQ:` reply is the signal quality `get_signal_strength` returns. */
  lemma SignalOfReply(rssi: nat, ber: string)
    requires '\n' !in ber && ' ' !in ber
    ensures ParseSignal("AT+CSQ\r\r\n+CSQ: " + NatToDecimal(rssi) + "," + ber + "\r\n\r\nOK\r\n") == Ok(rssi)
  {
    var digits := NatToDecimal(rssi);
    var line := "+CSQ:" + [' '] + (digits + [','] + ber);
    assert '\n' !in digits by {
      assert forall j :: 0 <= j < |digits| ==> IsDigit(digits[j]);
    }
    assert '\n' !in line;
    assert "AT+CSQ\r\r\n+CSQ: " + digits + "," + ber + "\r\n\r\nOK\r\n" == "AT+CSQ\r" + CRLF + line + CRLF + "\r\nOK\r\n";
    SecondLine("AT+CSQ\r", line, "\r\nOK\r\n");
    SignalField(digits, ber);
    NatToDecimalValue(rssi);
    ParseDigits(digits);
  }

  // ------------------------------------------------- SMS and HTTP bodies

  /** `res.split(marker)[1].split('\r\n')[1]`: the line after the line that holds the marker. */
  function LineAfterMarker(res: string, marker: string): Result<string>
    requires marker != []
  {
    var pieces := Split(res, marker);
    if |pieces| < 2 then Err(IndexError)
    else
      var lines := Split(pieces[1], CRLF);
      if |lines| < 2 then Err(IndexError) else Ok(lines[1])
  }

  /** Without the marker there is no second piece, so the parse raises. */
  lemma LineAfterMissingMarker(res: string, marker: string)
    requires marker != [] && !Occurs(res, marker)
    ensures LineAfterMarker(res, marker) == Err(IndexError)
  {
  }

  /**
   * In a reply whose only marker is found after `a`, the parse returns the
   * line that follows the marker's own line.
   */
  lemma LineAfterMarkerOf(a: string, marker: string, header: string, body: string, tail: string)
    requires marker != []
    requires Find(a + marker + header + CRLF + body + CRLF + tail, marker) == |a|
    requires !Occurs(header + CRLF + body + CRLF + tail, marker)
    requires '\n' !in header && '\n' !in body
    ensures LineAfterMarker(a + marker + header + CRLF + body + CRLF + tail, marker) == Ok(body)
  {
    var rest := header + CRLF + body + CRLF + tail;
    assert a + marker + header + CRLF + body + CRLF + tail == a + marker + rest;
    SplitAfter(a, marker, rest);
    SplitNone(rest, marker);
    SecondLine(header, body, tail);
  }

  const CMGR_MARKER: string := "+CMGR: "

  /** The SMS read parse of `read_sms_message`. */
  function ParseSmsBody(res: string): Result<string> {
    LineAfterMarker(res, CMGR_MARKER)
  }

  /** The documented `AT+CMGR=1` reply: an unsolicited `+CMTI:` line, the echo, the header line, the text. */
  const SMS_EXAMPLE_PREFIX: string := "\r\n+CMTI: \"SM\",1\r\nAT+CMGR=1\r\r\n"
  const SMS_EXAMPLE_STATUS: string := "\"REC UNREAD\",\"+447941074267\""
  const SMS_EXAMPLE_STAMP: string := ",\"\",\"20/10/09,14:52:02+04\""
  const SMS_EXAMPLE_TAIL: string := "\r\nOK\r\n"
  const SMS_EXAMPLE_REPLY: string :=
    SMS_EXAMPLE_PREFIX + CMGR_MARKER + SMS_EXAMPLE_STATUS + SMS_EXAMPLE_STAMP + CRLF + "Test" + CRLF + SMS_EXAMPLE_TAIL

  /** In the documented reply the `+CMGR: ` marker is first found after the unsolicited `+CMTI:` line and the echo. */
  lemma SmsExampleMarker(rest: string)
    ensures Find(SMS_EXAMPLE_PREFIX + CMGR_MARKER + rest, CMGR_MARKER) == 29
  {
    var s := SMS_EXAMPLE_PREFIX + CMGR_MARKER + rest;
    assert |SMS_EXAMPLE_PREFIX| == 29;
    assert s[29..36] == CMGR_MARKER;
    forall j | 0 <= j < 29 && j + 7 <= |s| ensures !OccursAt(s, CMGR_MARKER, j) {
      if j == 19 {
        assert s[j..j + 7][5] == s[24] == '=';
      } else {
        assert s[j..j + 7][3] == s[j + 3] != 'G';
      }
    }
    FindFirst(s, CMGR_MARKER, 29);
  }

  /** Behind the documented prefix, a header line and a text line without `G` or LF give that text. */
  lemma SmsBodyAfterExamplePrefix(header: string, body: string)
    requires '\n' !in header && 'G' !in header && '\n' !in body && 'G' !in body
    ensures ParseSmsBody(SMS_EXAMPLE_PREFIX + CMGR_MARKER + header + CRLF + body + CRLF + SMS_EXAMPLE_TAIL) == Ok(body)
  {
    var rest := header + CRLF + body + CRLF + SMS_EXAMPLE_TAIL;
    assert SMS_EXAMPLE_PREFIX + CMGR_MARKER + header + CRLF + body + CRLF + SMS_EXAMPLE_TAIL
      == SMS_EXAMPLE_PREFIX + CMGR_MARKER + rest;
    SmsExampleMarker(rest);
    assert 'G' !in rest;
    MissingCharNoOccurrence(rest, CMGR_MARKER, 3);
    LineAfterMarkerOf(SMS_EXAMPLE_PREFIX, CMGR_MARKER, header, body, SMS_EXAMPLE_TAIL);
  }

  /** The documented header line holds neither a line feed nor a `G`. */
  lemma SmsExampleHeaderPlain()
    ensures '\n' !in SMS_EXAMPLE_STATUS + SMS_EXAMPLE_STAMP && 'G' !in SMS_EXAMPLE_STATUS + SMS_EXAMPLE_STAMP
  {
    assert '\n' !in SMS_EXAMPLE_STATUS && 'G' !in SMS_EXAMPLE_STATUS;
    assert '\n' !in SMS_EXAMPLE_STAMP && 'G' !in SMS_EXAMPLE_STAMP;
  }

  /** The documented `AT+CMGR=1` reply yields the message text `Test`. */
  lemma SmsBodyExample()
    ensures ParseSmsBody(SMS_EXAMPLE_REPLY) == Ok("Test")
  {
    var header := SMS_EXAMPLE_STATUS + SMS_EXAMPLE_STAMP;
    SmsExampleHeaderPlain();
    assert SMS_EXAMPLE_REPLY == SMS_EXAMPLE_PREFIX + CMGR_MARKER + header + CRLF + "Test" + CRLF + SMS_EXAMPLE_TAIL;
    SmsBodyAfterExamplePrefix(header, "Test");
  }

  const HTTPREAD_MARKER: string := "+HTTPREAD: "

  /** `parse_http_response`: the line after the `+HTTPREAD: ` line, or empty text when the parse fails. */
  function ParseHttpResponse(res: string): (body: string)
    ensures !Occurs(res, HTTPREAD_MARKER) ==> body == ""
  {
    match LineAfterMarker(res, HTTPREAD_MARKER)
    case Ok(line) => line
    case Err(_) => ""
  }

  /** `t` is found right after `a` when one of its characters is absent from `a` and from the part of `t` before it. */
  lemma FindAfterPrefixByChar(a: string, t: string, b: string, k: nat)
    requires k < |t| && t[k] !in a && t[k] !in t[..k]
    ensures Find(a + t + b, t) == |a|
  {
    var s := a + t + b;
    assert s[|a|..|a| + |t|] == t;
    forall j | 0 <= j < |a| && j + |t| <= |s| ensures !OccursAt(s, t, j) {
      if j + k < |a| {
        assert s[j..j + |t|][k] == s[j + k] == a[j + k] != t[k];
      } else {
        assert s[j + k] == t[j + k - |a|] == t[..k][j + k - |a|];
        assert s[j..j + |t|][k] == s[j + k] != t[k];
      }
    }
    FindFirst(s, t, |a|);
  }

  /** The body of an `AT+HTTPREAD` reply is what the HTTP flows return. */
  lemma HttpBodyOfReply(header: string, body: string)
    requires '\n' !in header && '\n' !in body
    requires !Occurs(header + CRLF + body + CRLF + "OK\r\n", HTTPREAD_MARKER)
    ensures ParseHttpResponse("AT+HTTPREAD\r\r\n+HTTPREAD: " + header + CRLF + body + CRLF + "OK\r\n") == body
  {
    var a := "AT+HTTPREAD\r\r\n";
    var tail := "OK\r\n";
    var rest := header + CRLF + body + CRLF + tail;
    assert "AT+HTTPREAD\r\r\n+HTTPREAD: " + header + CRLF + body + CRLF + "OK\r\n" == a + HTTPREAD_MARKER + rest;
    FindAfterPrefixByChar(a, HTTPREAD_MARKER, rest, 9);
    assert a + HTTPREAD_MARKER + rest == a + HTTPREAD_MARKER + header + CRLF + body + CRLF + tail;
    LineAfterMarkerOf(a, HTTPREAD_MARKER, header, body, tail);
  }
}
