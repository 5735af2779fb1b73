/**
 * The failure kinds of the SIM800 driver.
 *
 * The driver signals every failure with a Python exception.  Each exception
 * class of `sim800c/exceptions.py` becomes one variant of `Error`; so do the
 * few built-in exceptions that the core can raise on its own (an index or
 * integer conversion that fails inside a parser, a command issued while no
 * serial handle exists).  The free-text messages are not modelled: callers
 * only ever distinguish failures by their class.
 */
module Errors {

  datatype Error =
    | GPRSError          // base class: decode retries exhausted, boot timeout, attach faults
    | ATCheckError       // AT liveness check failed or no open link
    | GPRSCheckError     // AT+CGATT? did not classify OK
    | GetProviderError
    | SetProviderError   // also raised by enable_pdp and enable_wireless
    | GetIpError
    | SMSError
    | TCPError
    | HTTPError
    | SerialOpenError    // the serial port could not be opened
    | SerialInitTimeout  // no AT answer before init_serial's await window closed
    | NoLink             // a command was written while the serial handle was None
    | IndexError         // `split(...)[i]` or `s[0]` on a piece that is not there
    | ValueError         // `int(...)` on text that is not an integer
    | FlushFuelExhausted // the unbounded HTTPS flush loop ran out of fuel (model only)

  /** The value of a call that returns normally, or the exception it raises. */
  datatype Result<+T> = Ok(value: T) | Err(error: Error)

  /** A call that returns nothing, or the exception it raises. */
  datatype Outcome = Pass | Fail(error: Error)

  datatype Option<+T> = None | Some(value: T)

  /** Whether a call that returns a value returned or raised. */
  function Status<T>(r: Result<T>): (o: Outcome)
    ensures o.Pass? <==> r.Ok?
    ensures o.Fail? ==> o.error == r.error
  {
    if r.Ok? then Pass else Fail(r.error)
  }
}
