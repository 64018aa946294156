/**
 * The disconnect `switch` of the connection supervisor (main.js:323-349): from the
 * status code carried by a `close` update to the message reported, whether the
 * session directory is deleted, and whether a fresh attempt is scheduled.
 */
module Disconnect {
  import opened Wrappers

  // The codes of the protocol library's `DisconnectReason` enumeration that the switch
  // names (the library itself is not part of this model). `timedOut` shares 408 with
  // `connectionLost`; `multideviceMismatch` (411), `forbidden` (403) and
  // `unavailableService` (503) have no case of their own.
  const LOGGED_OUT: int := 401
  const CONNECTION_LOST: int := 408
  const CONNECTION_CLOSED: int := 428
  const CONNECTION_REPLACED: int := 440
  const BAD_SESSION: int := 500
  const RESTART_REQUIRED: int := 515

  /** Delay before the fresh attempt that `restartRequired` schedules. */
  const RESTART_DELAY_MS: nat := 2000

  const MSG_INVALID := "Session invalid or logged out. Please pair again."
  const MSG_CLOSED := "Connection was closed by WhatsApp"
  const MSG_LOST := "Connection lost due to network issues"
  const MSG_REPLACED := "Connection replaced by another session"
  const MSG_RESTART := "WhatsApp requires restart"
  const MSG_UNEXPECTED := "Unexpected disconnection. Attempting to reconnect..."
  const MSG_TERMINATED := "Connection terminated. Please try pairing again."

  /** What a `close` does besides leaving the registry: message, wipe, reconnect. */
  datatype Classification = Classification(message: string, wipeSession: bool, restart: bool)

  predicate IsNamed(code: int) {
    code == BAD_SESSION || code == LOGGED_OUT || code == CONNECTION_CLOSED ||
    code == CONNECTION_LOST || code == CONNECTION_REPLACED || code == RESTART_REQUIRED
  }

  /**
   * The switch on `lastDisconnect?.error?.output?.statusCode` (None when any link of
   * that chain is missing), with the default branch's `shouldReconnect` test as written.
   */
  function Classify(statusCode: Option<int>): (c: Classification)
    ensures c.wipeSession <==> statusCode == Some(BAD_SESSION) || statusCode == Some(LOGGED_OUT)
    ensures c.restart <==> statusCode == Some(RESTART_REQUIRED)
    ensures c.wipeSession ==> c.message == MSG_INVALID
    ensures statusCode == Some(CONNECTION_CLOSED) ==> c.message == MSG_CLOSED
    ensures statusCode == Some(CONNECTION_LOST) ==> c.message == MSG_LOST
    ensures statusCode == Some(CONNECTION_REPLACED) ==> c.message == MSG_REPLACED
    ensures c.restart ==> c.message == MSG_RESTART
    ensures (statusCode.None? || !IsNamed(statusCode.value)) <==> c.message == MSG_UNEXPECTED
    ensures c.message != MSG_TERMINATED
  {
    var shouldReconnect := statusCode != Some(LOGGED_OUT);
    match statusCode
    case Some(code) =>
      if code == BAD_SESSION || code == LOGGED_OUT then Classification(MSG_INVALID, true, false)
      else if code == CONNECTION_CLOSED then Classification(MSG_CLOSED, false, false)
      else if code == CONNECTION_LOST then Classification(MSG_LOST, false, false)
      else if code == CONNECTION_REPLACED then Classification(MSG_REPLACED, false, false)
      else if code == RESTART_REQUIRED then Classification(MSG_RESTART, false, true)
      else Classification(if shouldReconnect then MSG_UNEXPECTED else MSG_TERMINATED, false, false)
    case None =>
      Classification(if shouldReconnect then MSG_UNEXPECTED else MSG_TERMINATED, false, false)
  }
}
