/**
 * The driver's command catalog and command framing.
 *
 * Callers name a command either by a catalog name (`"enable_gprs"`), which
 * is replaced by its fixed AT text, or by ready-made text (`"AT+CMGR=1"`, an
 * SMS body, a TCP payload), which is sent unchanged.  Every frame written to
 * the module is the resolved text followed by CR LF.
 */
module Catalog {
  import opened PyText

  /** The catalog of named AT commands, as listed by the driver. */
  const AT_COMMANDS: map<string, string> := map[
    "test_at" := "AT",
    "reset_default_config" := "ATZ",
    "get_signal_quality" := "AT+CSQ",
    "test_grps_service_status" := "AT+CGATT?",
    "disable_gprs" := "AT+CGATT=0",
    "enable_gprs" := "AT+CGATT=1",
    "set_provider" := "AT+CSTT=",
    "get_provider" := "AT+CSTT?",
    "enable_wireless" := "AT+CIICR",
    "get_ip" := "AT+CIFSR",
    "set_cipmode" := "AT+CIPMODE=0",
    "connect_tcp_client" := "AT+CIPSTART=\"TCP\",",
    "tcp_send_string" := "AT+CIPSEND=",
    "close_tcp_client" := "AT+CIPCLOSE",
    "close_pdp" := "AT+CIPSHUT",
    "set_sms_mode" := "AT+CMGF=1",
    "set_sms_phone_number" := "AT+CMGS=",
    "read_sms" := "AT+CMGR=",
    "delete_sms" := "AT+CMGD=",
    "delete_all_sms" := "AT+CMGDA=\"DEL ALL\"",
    "http_configure_conn_bearer" := "AT+SAPBR=3,1,\"Contype\",\"GPRS\"",
    "http_configure_conn_bearer_apn" := "AT+SAPBR=3,1,\"APN\",\"EE\"",
    "http_open_gprs_context" := "AT+SAPBR=1,1",
    "http_query_gprs_context" := "AT+SAPBR=2,1",
    "http_init" := "AT+HTTPINIT",
    "http_set_param_cid" := "AT+HTTPPARA=\"CID\",1",
    "http_set_param_url" := "AT+HTTPPARA=\"URL\",",
    "http_post_data" := "AT+HTTPDATA=",
    "http_get_session_start" := "AT+HTTPACTION=0",
    "http_post_session_start" := "AT+HTTPACTION=1",
    "http_session_status" := "AT+HTTPSTATUS?",
    "http_get_data" := "AT+HTTPREAD",
    "http_terminate_session" := "AT+HTTPTERM",
    "http_close_gprs_context" := "AT+SAPBR=0,1",
    "http_redir_enable" := "AT+HTTPPARA=\"REDIR\",1",
    "http_redir_disable" := "AT+HTTPPARA=\"REDIR\",0",
    "https_enable" := "AT+HTTPSSL=1",
    "https_disable" := "AT+HTTPSSL=0"
  ]

  /** The text sent for a command: its catalog text, or the command itself when it is not a catalog name. */
  function Resolve(cmd: string): string {
    if cmd in AT_COMMANDS then AT_COMMANDS[cmd] else cmd
  }

  /** The bytes written for a command: the resolved text and the CR LF terminator. */
  function Frame(cmd: string): string {
    Resolve(cmd) + CRLF
  }

  predicate LowerStart(s: string) {
    |s| > 0 && 'a' <= s[0] <= 'z'
  }

  /** The two halves of `CatalogShape`, each checked over the whole catalog on its own. */
  lemma CatalogNames()
    ensures forall k :: k in AT_COMMANDS ==> LowerStart(k)
  {
  }

  lemma CatalogTexts()
    ensures forall k :: k in AT_COMMANDS ==> AT_COMMANDS[k][0] == 'A'
  {
  }

  /** Every catalog name starts with a lower-case letter and every catalog text with `A`. */
  lemma CatalogShape()
    ensures forall k :: k in AT_COMMANDS ==> LowerStart(k) && AT_COMMANDS[k][0] == 'A'
  {
    CatalogNames();
    CatalogTexts();
  }

  /** Resolved text is never resolved again: no catalog text is itself a catalog name. */
  lemma ResolveIdempotent(cmd: string)
    ensures Resolve(Resolve(cmd)) == Resolve(cmd)
  {
    CatalogShape();
    if cmd in AT_COMMANDS {
      var text := AT_COMMANDS[cmd];
      assert text[0] == 'A';
      assert text !in AT_COMMANDS;
    }
  }

  /** Ready-made AT text (anything starting with an upper-case letter) passes through unchanged. */
  lemma UpperTextPassesThrough(cmd: string)
    requires |cmd| > 0 && 'A' <= cmd[0] <= 'Z'
    ensures Resolve(cmd) == cmd && Frame(cmd) == cmd + CRLF
  {
    CatalogShape();
    assert !LowerStart(cmd);
  }

  /** Two commands give the same frame exactly when they resolve to the same text. */
  lemma FrameInjective(a: string, b: string)
    ensures Frame(a) == Frame(b) <==> Resolve(a) == Resolve(b)
  {
    if Frame(a) == Frame(b) {
      var fa, fb := Frame(a), Frame(b);
      assert Resolve(a) == fa[..|fa| - 2];
      assert Resolve(b) == fb[..|fb| - 2];
    }
  }

  /**
   * A payload that happens to be a catalog name is rewritten, and a name
   * missing from the catalog (`close_tcp`, used by the TCP teardown) is
   * written literally.
   */
  lemma CatalogNameQuirks()
    ensures Frame("close_pdp") == "AT+CIPSHUT\r\n"
    ensures Frame("close_tcp") == "close_tcp\r\n"
  {
    assert "close_pdp" in AT_COMMANDS && AT_COMMANDS["close_pdp"] == "AT+CIPSHUT";
    assert "close_tcp" !in AT_COMMANDS;
  }
}
