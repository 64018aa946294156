/**
 * The connection supervisor of main.js: the HTTP admission decision, the one-shot
 * response each request is answered on, the two module-level registries, one
 * connection attempt as an object with a method per event, the start-up loop that
 * reconnects the saved sessions, and the process-exit clean-up.
 *
 * Every handler runs to completion before the next one starts (one event loop), so an
 * attempt is driven by calling its methods in the order its events arrive.
 */
module Supervisor {
  import opened Wrappers
  import Text
  import FileStorage
  import Disconnect
  import SessionId
  import Pairing

  // ---------------------------------------------------------------------
  // Replies
  // ---------------------------------------------------------------------

  /** One JSON reply: the HTTP status, the body's `status` and `message`, and its `code` or `qr`. */
  datatype Reply = Reply(httpStatus: nat, status: string, message: string, code: Option<string>, qr: Option<string>)

  function ErrorReply(httpStatus: nat, message: string): Reply {
    Reply(httpStatus, "error", message, None, None)
  }

  /** The `[ number ] ` tag every per-number message starts with. */
  function Tag(number: string): string {
    "[ " + number + " ] "
  }

  const MSG_REQUIRED := "Number parameter is required"
  const MSG_BAD_FORMAT := "Invalid phone number format"
  const MSG_ALREADY := "This number is already connected."
  const MSG_SETUP_FAILED := "Failed to initialize connection."
  const MSG_QR := "Scan QR with WhatsApp (Linked Devices -> Link a Device)"
  const MSG_QR_STRING := "QR string returned."
  const MSG_FILE_NOT_FOUND := "File not found"
  const MSG_CONNECTED := "Successfully connected to WhatsApp!"
  const MSG_ENTER_CODE := "Enter this code in WhatsApp: "
  const MSG_PAIRING_FAILED := "Failed to generate pairing code."
  const MSG_TIMEOUT := "Connection timeout. Please try again."

  /** The fewest digits a number may have. */
  const MIN_DIGITS: nat := 10

  /** The default of `CONNECT_TIMEOUT_MS`. */
  const CONNECT_TIMEOUT_MS: nat := 60000

  /** The `retries` argument the start-up loop leaves at its default. */
  const DOWNLOAD_RETRIES: nat := 3

  /**
   * An Express response: `send` can be called once, and sets `headersSent`. The start-up
   * loop's stand-in (main.js:493) is a response whose `headersSent` is already true.
   */
  class Response {
    var headersSent: bool
    var sent: seq<Reply>

    ghost predicate Valid()
      reads this
    {
      |sent| <= 1 && (sent != [] ==> headersSent)
    }

    constructor ()
      ensures Valid() && !headersSent && sent == []
    {
      headersSent := false;
      sent := [];
    }

    /** `{ headersSent: true, status: () => ({ send: () => {} }) }` */
    constructor Dummy()
      ensures Valid() && headersSent && sent == []
    {
      headersSent := true;
      sent := [];
    }

    method Send(r: Reply)
      requires Valid() && !headersSent
      modifies this
      ensures Valid() && headersSent && sent == [r]
    {
      headersSent := true;
      sent := sent + [r];
    }
  }

  // ---------------------------------------------------------------------
  // Admission (main.js:505-515)
  // ---------------------------------------------------------------------

  /** What the router does with a request: answer it at once, or start an attempt for the raw number. */
  datatype Admission = Answered(reply: Reply) | StartAttempt(number: string)

  /**
   * The admission decision for the query parameter `number` (None when absent), given
   * the numbers with an open socket.
   */
  function Admit(query: Option<string>, active: set<string>): (d: Admission)
    ensures query.None? || query == Some("") <==> d == Answered(ErrorReply(400, MSG_REQUIRED))
    ensures d == Answered(ErrorReply(400, MSG_BAD_FORMAT)) <==>
              query.Some? && query.value != "" && |Text.Digits(query.value)| < MIN_DIGITS
    ensures d.Answered? && d.reply.httpStatus == 200 <==>
              query.Some? && query.value != "" && |Text.Digits(query.value)| >= MIN_DIGITS &&
              Text.Digits(query.value) in active
    ensures d.Answered? && d.reply.httpStatus == 200 ==>
              d.reply == Reply(200, "already_connected", Tag(Text.Digits(query.value)) + MSG_ALREADY, None, None)
    ensures d.StartAttempt? <==>
              query.Some? && query.value != "" && |Text.Digits(query.value)| >= MIN_DIGITS &&
              Text.Digits(query.value) !in active
    ensures d.StartAttempt? ==> query == Some(d.number)
  {
    match query
    case None => Answered(ErrorReply(400, MSG_REQUIRED))
    case Some(number) =>
      if number == "" then Answered(ErrorReply(400, MSG_REQUIRED))
      else
        var sanitized := Text.Digits(number);
        if sanitized == "" || |sanitized| < MIN_DIGITS then Answered(ErrorReply(400, MSG_BAD_FORMAT))
        else if sanitized in active then
          Answered(Reply(200, "already_connected", Tag(sanitized) + MSG_ALREADY, None, None))
        else StartAttempt(number)
  }

  /**
   * The attempt the router starts sanitises the raw number again (main.js:266), and gets
   * the very number admission checked: sanitising is idempotent.
   */
  lemma AdmittedNumberResanitises(query: Option<string>, active: set<string>)
    requires Admit(query, active).StartAttempt?
    ensures var n := Admit(query, active).number;
            Text.Digits(Text.Digits(n)) == Text.Digits(n) && |Text.Digits(n)| >= MIN_DIGITS &&
            Text.Digits(n) !in active
  {
    Text.DigitsIdempotent(Admit(query, active).number);
  }

  // ---------------------------------------------------------------------
  // The registries (main.js:49-50)
  // ---------------------------------------------------------------------

  /**
   * `activeSockets` (number to socket, here a socket's identity) and `socketCreationTime`
   * (number to the time the attempt created its socket).
   */
  class Registry {
    var activeSockets: map<string, nat>
    var socketCreationTime: map<string, int>

    constructor ()
      ensures activeSockets == map[] && socketCreationTime == map[]
    {
      activeSockets := map[];
      socketCreationTime := map[];
    }

    method Stamp(number: string, now: int)
      modifies this
      ensures socketCreationTime == old(socketCreationTime)[number := now]
      ensures activeSockets == old(activeSockets)
    {
      socketCreationTime := socketCreationTime[number := now];
    }

    method Register(number: string, socket: nat)
      modifies this
      ensures activeSockets == old(activeSockets)[number := socket]
      ensures socketCreationTime == old(socketCreationTime)
    {
      activeSockets := activeSockets[number := socket];
    }

    method Evict(number: string)
      modifies this
      ensures activeSockets == old(activeSockets) - {number}
      ensures socketCreationTime == old(socketCreationTime) - {number}
    {
      activeSockets := activeSockets - {number};
      socketCreationTime := socketCreationTime - {number};
    }

    /**
     * The `exit` handler (main.js:522-528): closes every open socket and removes its number
     * from both maps. A number whose attempt never opened keeps its creation time.
     */
    method Exit() returns (closed: set<string>)
      modifies this
      ensures closed == old(activeSockets).Keys
      ensures activeSockets == map[]
      ensures socketCreationTime == old(socketCreationTime) - old(activeSockets).Keys
    {
      closed := {};
      while activeSockets != map[]
        invariant closed !! activeSockets.Keys
        invariant closed + activeSockets.Keys == old(activeSockets).Keys
        invariant activeSockets == old(activeSockets) - closed
        invariant socketCreationTime == old(socketCreationTime) - closed
        decreases |activeSockets|
      {
        var n :| n in activeSockets;
        activeSockets := activeSockets - {n};
        socketCreationTime := socketCreationTime - {n};
        closed := closed + {n};
      }
    }
  }

  // ---------------------------------------------------------------------
  // One connection attempt (main.js:265-472)
  // ---------------------------------------------------------------------

  /** The connect timeout: not yet set, set and waiting, or already run. */
  datatype Timer = Unarmed | Armed | Fired

  /**
   * One call of `cyberkaviminibot(number, res)`: its closure state (`responded`,
   * `responseStatus`) and what it did to the session directory, the socket and the
   * clock. The socket, the file system and the archive are not modelled; what the event
   * handlers learn from them arrives as arguments.
   */
  class Attempt {
    const number: string
    const sanitized: string
    const res: Response
    const registry: Registry
    const store: FileStorage.Store
    const env: SessionId.Env
    /** The identity of the socket this attempt created. */
    const socket: nat
    /** Whether the auth state and the socket were created (otherwise the setup threw). */
    const setupOk: bool

    var responded: bool
    var codeSent: bool
    var connected: bool
    var error: Option<string>
    var authenticated: bool
    var pairing: Option<Pairing.PairingRun>
    var timer: Timer
    var sessionWiped: bool
    var wsClosed: bool
    var restartsPending: nat

    ghost predicate Valid()
      reads this, res, store
    {
      && res.Valid() && store.Valid()
      && sanitized == Text.Digits(number)
      && (responded ==> res.headersSent)
      && (codeSent ==> pairing.Some? && pairing.value.result.CodeSent?)
      && (pairing.Some? ==> authenticated)
      && (timer != Unarmed ==> authenticated)
    }

    /**
     * The setup (main.js:266-296): the settings entry of the sanitised number is saved with
     * no patch; then, when the auth state and the socket can be created, the creation time
     * is stamped; otherwise a 500 names the raw number, unless the response was already sent.
     */
    constructor (number: string, res: Response, registry: Registry, store: FileStorage.Store,
                 env: SessionId.Env, socket: nat, now: int, setupOk: bool)
      requires res.Valid() && store.Valid()
      modifies res, registry, store
      ensures Valid()
      ensures this.number == number && this.res == res && this.registry == registry && this.store == store
      ensures this.env == env && this.socket == socket && this.setupOk == setupOk
      ensures !responded && !codeSent && !connected && error == None && !authenticated
      ensures pairing == None && timer == Unarmed && !sessionWiped && !wsClosed && restartsPending == 0
      ensures store.settings == FileStorage.Saved(old(store.settings), number, map[])
      ensures store.sessions == old(store.sessions)
      ensures registry.activeSockets == old(registry.activeSockets)
      ensures setupOk ==> registry.socketCreationTime == old(registry.socketCreationTime)[Text.Digits(number) := now]
      ensures !setupOk ==> registry.socketCreationTime == old(registry.socketCreationTime)
      ensures !setupOk && !old(res.headersSent) ==>
                res.headersSent && res.sent == [ErrorReply(500, Tag(number) + MSG_SETUP_FAILED)]
      ensures setupOk || old(res.headersSent) ==>
                res.headersSent == old(res.headersSent) && res.sent == old(res.sent)
    {
      this.number := number;
      this.sanitized := Text.Digits(number);
      this.res := res;
      this.registry := registry;
      this.store := store;
      this.env := env;
      this.socket := socket;
      this.setupOk := setupOk;
      responded := false;
      codeSent := false;
      connected := false;
      error := None;
      authenticated := false;
      pairing := None;
      timer := Unarmed;
      sessionWiped := false;
      wsClosed := false;
      restartsPending := 0;
      new;
      Text.DigitsIdempotent(number);
      store.SaveSettings(sanitized, map[]);
      if setupOk {
        registry.Stamp(sanitized, now);
      } else if !res.headersSent {
        res.Send(ErrorReply(500, Tag(number) + MSG_SETUP_FAILED));
      }
    }

    /**
     * The pairing block and the connect timer (main.js:423-465). Unregistered credentials run
     * the pairing loop over the request outcomes: a code is answered 200 `pairing_code_sent`,
     * exhaustion 500; either way only if nothing was answered yet. The timer is set once the
     * loop is over, so not while it is still pending.
     */
    method Authenticate(registered: bool, outcomes: seq<Pairing.Request>)
      requires Valid() && setupOk && !authenticated
      modifies this, res
      ensures Valid() && authenticated
      ensures registered ==> pairing == None && timer == Armed
      ensures registered ==> responded == old(responded) && codeSent == old(codeSent) &&
                             res.headersSent == old(res.headersSent) && res.sent == old(res.sent)
      ensures !registered ==> pairing.Some? && Pairing.Explains(outcomes, pairing.value)
      ensures !registered ==> var r := pairing.value.result;
                (timer == Armed <==> !r.Pending?) && (!r.Pending? || timer == Unarmed) &&
                codeSent == (old(codeSent) || r.CodeSent?)
      ensures !registered && (pairing.value.result.Pending? || old(responded) || old(res.headersSent)) ==>
                responded == old(responded) && res.headersSent == old(res.headersSent) && res.sent == old(res.sent)
      ensures !registered && pairing.value.result.CodeSent? && !old(responded) && !old(res.headersSent) ==>
                var code := pairing.value.result.code;
                responded && res.headersSent &&
                res.sent == [Reply(200, "pairing_code_sent", Tag(sanitized) + MSG_ENTER_CODE + code, Some(code), None)]
      ensures !registered && pairing.value.result.Exhausted? && !old(responded) && !old(res.headersSent) ==>
                responded && res.headersSent && res.sent == [ErrorReply(500, Tag(sanitized) + MSG_PAIRING_FAILED)]
      ensures connected == old(connected) && error == old(error) && sessionWiped == old(sessionWiped)
      ensures wsClosed == old(wsClosed) && restartsPending == old(restartsPending)
    {
      authenticated := true;
      if !registered {
        var run := Pairing.RequestPairingCode(outcomes);
        pairing := Some(run);
        match run.result
        case CodeSent(code) =>
          codeSent := true;
          if !responded && !res.headersSent {
            responded := true;
            res.Send(Reply(200, "pairing_code_sent", Tag(sanitized) + MSG_ENTER_CODE + code, Some(code), None));
          }
        case Exhausted =>
          if !responded && !res.headersSent {
            responded := true;
            res.Send(ErrorReply(500, Tag(sanitized) + MSG_PAIRING_FAILED));
          }
        case Pending =>
          return;
      }
      timer := Armed;
    }

    /**
     * A `qr` in a connection update (main.js:309-321): answered 200 with the `qr` status when the
     * terminal could render it, else with `qr_string` and the payload. This write checks only
     * `headersSent` and leaves `responded` alone.
     */
    method Qr(qr: string, rendered: bool)
      requires Valid() && setupOk
      modifies res
      ensures Valid()
      ensures qr != "" && !old(res.headersSent) ==>
                res.headersSent &&
                res.sent == [if rendered then Reply(200, "qr", MSG_QR, None, None)
                             else Reply(200, "qr_string", MSG_QR_STRING, None, Some(qr))]
      ensures qr == "" || old(res.headersSent) ==> res.headersSent == old(res.headersSent) && res.sent == old(res.sent)
    {
      if qr != "" && !res.headersSent {
        if rendered {
          res.Send(Reply(200, "qr", MSG_QR, None, None));
        } else {
          res.Send(Reply(200, "qr_string", MSG_QR_STRING, None, Some(qr)));
        }
      }
    }

    /**
     * `connection === 'close'` (main.js:323-357): the classified message becomes the error; a
     * bad or logged-out session has its directory deleted; `restartRequired` closes the socket
     * and schedules one fresh attempt; whatever the code, the number leaves both maps; and the
     * error is answered 500 if nothing was answered yet. Afterwards the response is always sent.
     */
    method Close(statusCode: Option<int>)
      requires Valid() && setupOk
      modifies this, res, registry
      ensures Valid()
      ensures var c := Disconnect.Classify(statusCode);
              && error == Some(c.message)
              && sessionWiped == (old(sessionWiped) || c.wipeSession)
              && wsClosed == (old(wsClosed) || c.restart)
              && restartsPending == old(restartsPending) + (if c.restart then 1 else 0)
      ensures registry.activeSockets == old(registry.activeSockets) - {sanitized}
      ensures registry.socketCreationTime == old(registry.socketCreationTime) - {sanitized}
      ensures res.headersSent
      ensures !old(responded) && !old(res.headersSent) ==>
                responded && res.sent == [ErrorReply(500, Tag(sanitized) + Disconnect.Classify(statusCode).message)]
      ensures old(responded) || old(res.headersSent) ==> responded == old(responded) && res.sent == old(res.sent)
      ensures codeSent == old(codeSent) && connected == old(connected) && authenticated == old(authenticated)
      ensures pairing == old(pairing) && timer == old(timer)
    {
      var c := Disconnect.Classify(statusCode);
      if c.wipeSession {
        sessionWiped := true;
      }
      error := Some(c.message);
      if c.restart {
        wsClosed := true;
        restartsPending := restartsPending + 1;
      }
      registry.Evict(sanitized);
      if !responded && !res.headersSent {
        responded := true;
        res.Send(ErrorReply(500, Tag(sanitized) + c.message));
      }
    }

    /**
     * `connection === 'open'` (main.js:360-417): the socket is registered and the attempt is
     * connected. Without a creds file the answer is 500 `File not found` and nothing is saved;
     * otherwise the upload outcome is encoded into a session id, saved for the user id when
     * there is one, and the answer is 200 `connected`; both only if nothing was answered yet.
     */
    method Open(credsExists: bool, upload: SessionId.Upload, userId: string)
      requires Valid() && setupOk
      modifies this, res, registry, store
      ensures Valid() && connected
      ensures registry.activeSockets == old(registry.activeSockets)[sanitized := socket]
      ensures registry.socketCreationTime == old(registry.socketCreationTime)
      ensures store.settings == old(store.settings)
      ensures var sid := SessionId.EncodeSid(upload, env.cwd, SessionId.CredsPath(env, sanitized));
              store.sessions == if credsExists && sid.Some? then old(store.sessions).Upsert(userId, sid.value)
                                else old(store.sessions)
      ensures !old(responded) && !old(res.headersSent) ==>
                responded && res.headersSent &&
                res.sent == [if credsExists then Reply(200, "connected", Tag(sanitized) + MSG_CONNECTED, None, None)
                             else ErrorReply(500, MSG_FILE_NOT_FOUND)]
      ensures old(responded) || old(res.headersSent) ==>
                responded == old(responded) && res.headersSent == old(res.headersSent) && res.sent == old(res.sent)
      ensures codeSent == old(codeSent) && error == old(error) && authenticated == old(authenticated)
      ensures pairing == old(pairing) && timer == old(timer) && sessionWiped == old(sessionWiped)
      ensures wsClosed == old(wsClosed) && restartsPending == old(restartsPending)
    {
      registry.Register(sanitized, socket);
      connected := true;
      if !credsExists {
        if !responded && !res.headersSent {
          responded := true;
          res.Send(ErrorReply(500, MSG_FILE_NOT_FOUND));
        }
        return;
      }
      var sid := SessionId.EncodeSid(upload, env.cwd, SessionId.CredsPath(env, sanitized));
      if sid.Some? {
        store.UpsertSession(userId, sid.value);
      }
      if !responded && !res.headersSent {
        responded := true;
        res.Send(Reply(200, "connected", Tag(sanitized) + MSG_CONNECTED, None, None));
      }
    }

    /**
     * The connect timer firing (main.js:455-465): only an attempt neither connected nor
     * answered is answered 408; then the socket registered for the number (whichever
     * attempt's it is) is closed and the number leaves both maps.
     */
    method Timeout() returns (closedSocket: Option<nat>)
      requires Valid() && timer == Armed
      modifies this, res, registry
      ensures Valid() && timer == Fired
      ensures !connected && !old(responded) && !old(res.headersSent) ==>
                && responded && res.headersSent
                && res.sent == [Reply(408, "timeout", Tag(sanitized) + MSG_TIMEOUT, None, None)]
                && registry.activeSockets == old(registry.activeSockets) - {sanitized}
                && registry.socketCreationTime == old(registry.socketCreationTime) - {sanitized}
                && closedSocket == (if sanitized in old(registry.activeSockets)
                                    then Some(old(registry.activeSockets)[sanitized]) else None)
      ensures connected || old(responded) || old(res.headersSent) ==>
                && responded == old(responded) && res.headersSent == old(res.headersSent) && res.sent == old(res.sent)
                && registry.activeSockets == old(registry.activeSockets)
                && registry.socketCreationTime == old(registry.socketCreationTime)
                && closedSocket == None
      ensures codeSent == old(codeSent) && connected == old(connected) && error == old(error)
      ensures authenticated == old(authenticated) && pairing == old(pairing) && sessionWiped == old(sessionWiped)
      ensures wsClosed == old(wsClosed) && restartsPending == old(restartsPending)
    {
      timer := Fired;
      closedSocket := None;
      if !connected && !responded && !res.headersSent {
        responded := true;
        res.Send(Reply(408, "timeout", Tag(sanitized) + MSG_TIMEOUT, None, None));
        if sanitized in registry.activeSockets {
          closedSocket := Some(registry.activeSockets[sanitized]);
        }
        registry.Evict(sanitized);
      }
    }

    /**
     * The attempt a `restartRequired` close scheduled, 2000 ms later (main.js:345): a fresh call
     * for the sanitised number on the same response, which that close has already sent.
     */
    method Restart(socket: nat, now: int, setupOk: bool) returns (next: Attempt)
      requires Valid() && restartsPending > 0
      modifies this, res, registry, store
      ensures Valid() && restartsPending == old(restartsPending) - 1
      ensures fresh(next) && next.Valid()
      ensures next.number == sanitized && next.sanitized == sanitized && next.res == res
      ensures next.registry == registry && next.store == store && next.env == env
      ensures next.socket == socket && next.setupOk == setupOk
      ensures !next.responded && !next.connected && next.timer == Unarmed && next.restartsPending == 0
      ensures store.settings == FileStorage.Saved(old(store.settings), sanitized, map[])
      ensures store.sessions == old(store.sessions)
      ensures registry.activeSockets == old(registry.activeSockets)
      ensures setupOk ==> registry.socketCreationTime == old(registry.socketCreationTime)[sanitized := now]
      ensures !setupOk ==> registry.socketCreationTime == old(registry.socketCreationTime)
      ensures old(res.headersSent) ==> res.headersSent && res.sent == old(res.sent)
      ensures responded == old(responded) && codeSent == old(codeSent) && connected == old(connected)
      ensures error == old(error) && authenticated == old(authenticated) && pairing == old(pairing)
      ensures timer == old(timer) && sessionWiped == old(sessionWiped) && wsClosed == old(wsClosed)
    {
      Text.DigitsIdempotent(number);
      next := new Attempt(sanitized, res, registry, store, env, socket, now, setupOk);
      restartsPending := restartsPending - 1;
    }
  }

  // ---------------------------------------------------------------------
  // The router (main.js:505-520)
  // ---------------------------------------------------------------------

  /** A request: answered at once on a fresh response, or handed to a new attempt. */
  method Route(query: Option<string>, registry: Registry, store: FileStorage.Store, env: SessionId.Env,
               socket: nat, now: int, setupOk: bool) returns (res: Response, attempt: Option<Attempt>)
    requires store.Valid()
    modifies registry, store
    ensures fresh(res) && res.Valid()
    ensures var d := Admit(query, old(registry.activeSockets).Keys);
            d.Answered? ==> && res.sent == [d.reply] && attempt == None
                            && registry.activeSockets == old(registry.activeSockets)
                            && registry.socketCreationTime == old(registry.socketCreationTime)
                            && store.settings == old(store.settings)
    ensures var d := Admit(query, old(registry.activeSockets).Keys);
            d.StartAttempt? ==> && attempt.Some? && fresh(attempt.value) && attempt.value.Valid()
                                && attempt.value.res == res && attempt.value.number == d.number
                                && attempt.value.registry == registry && attempt.value.store == store
                                && attempt.value.setupOk == setupOk && attempt.value.env == env
                                && !attempt.value.authenticated
                                && !attempt.value.responded && attempt.value.timer == Unarmed
                                && store.settings == FileStorage.Saved(old(store.settings), d.number, map[])
                                && (setupOk ==> registry.socketCreationTime ==
                                                  old(registry.socketCreationTime)[Text.Digits(d.number) := now])
                                && (!setupOk ==> registry.socketCreationTime == old(registry.socketCreationTime))
                                && (setupOk ==> !res.headersSent && res.sent == [])
                                && (!setupOk ==> res.headersSent &&
                                                 res.sent == [ErrorReply(500, Tag(d.number) + MSG_SETUP_FAILED)])
    ensures store.sessions == old(store.sessions) && registry.activeSockets == old(registry.activeSockets)
  {
    res := new Response();
    var d := Admit(query, registry.activeSockets.Keys);
    match d
    case Answered(reply) =>
      res.Send(reply);
      attempt := None;
    case StartAttempt(number) =>
      var a := new Attempt(number, res, registry, store, env, socket, now, setupOk);
      attempt := Some(a);
  }

  /**
   * Until an attempt's connection opens its number is not in `activeSockets` (only `open` puts
   * it there): after a first request for a well-formed number has been routed and its pairing
   * block has run, whatever the pairing requests answered, a second request for the same
   * number is admitted and starts a second attempt.
   */
  method SecondRequestWhilePairing(number: string, env: SessionId.Env, outcomes: seq<Pairing.Request>)
    returns (first: Admission, second: Admission)
    requires |Text.Digits(number)| >= MIN_DIGITS
    ensures first.StartAttempt? && second.StartAttempt? && first.number == second.number == number
  {
    var registry := new Registry();
    var store := new FileStorage.Store(map[], FileStorage.EmptySessions());
    first := Admit(Some(number), registry.activeSockets.Keys);
    var res, attempt := Route(Some(number), registry, store, env, 1, 0, true);
    var a := attempt.value;
    a.Authenticate(false, outcomes);
    second := Admit(Some(number), registry.activeSockets.Keys);
  }

  // ---------------------------------------------------------------------
  // Start-up (main.js:475-502)
  // ---------------------------------------------------------------------

  /** Whether `sessionDownload` restores saved record `rec`, given the archive's answers. */
  function Restores(rec: FileStorage.SessionRecord, env: SessionId.Env, files: set<string>,
                    fetches: seq<SessionId.Fetch>): bool
    requires DOWNLOAD_RETRIES <= |fetches|
  {
    SessionId.Download(Some(rec.sessionId), Text.Digits(rec.number), DOWNLOAD_RETRIES, env, files, fetches)
      .result.Restored?
  }

  predicate FetchesFit(records: seq<FileStorage.SessionRecord>, fetches: seq<seq<SessionId.Fetch>>) {
    |fetches| == |records| && forall i :: 0 <= i < |fetches| ==> DOWNLOAD_RETRIES <= |fetches[i]|
  }

  /**
   * Whether the start-up loop starts an attempt for each saved record: its number has no
   * open socket and its session restores.
   */
  function Eligible(records: seq<FileStorage.SessionRecord>, active: set<string>, env: SessionId.Env,
                    files: set<string>, fetches: seq<seq<SessionId.Fetch>>): (el: seq<bool>)
    requires FetchesFit(records, fetches)
    ensures |el| == |records|
    ensures forall i :: 0 <= i < |records| ==>
              el[i] == (Text.Digits(records[i].number) !in active && Restores(records[i], env, files, fetches[i]))
  {
    seq(|records|, i requires 0 <= i < |records| =>
      Text.Digits(records[i].number) !in active && Restores(records[i], env, files, fetches[i]))
  }

  /** The indices, in order, of the first `n` records the start-up loop starts an attempt for. */
  function Plan(el: seq<bool>, n: nat): (p: seq<nat>)
    requires n <= |el|
    ensures forall k :: 0 <= k < |p| ==> p[k] < n
    ensures forall k, l :: 0 <= k < l < |p| ==> p[k] < p[l]
    ensures forall i :: 0 <= i < n ==> (i in p <==> el[i])
  {
    if n == 0 then []
    else if el[n - 1] then Plan(el, n - 1) + [n - 1] else Plan(el, n - 1)
  }

  /** The sanitised numbers of the planned records, in plan order. */
  function PlannedNumbers(records: seq<FileStorage.SessionRecord>, p: seq<nat>): (ns: seq<string>)
    requires forall k :: 0 <= k < |p| ==> p[k] < |records|
    ensures |ns| == |p| && forall k :: 0 <= k < |p| ==> ns[k] == Text.Digits(records[p[k]].number)
  {
    seq(|p|, k requires 0 <= k < |p| => Text.Digits(records[p[k]].number))
  }

  /** Whether each planned record's setup succeeds, in plan order. */
  function PlannedSetups(setupOk: seq<bool>, p: seq<nat>): (oks: seq<bool>)
    requires forall k :: 0 <= k < |p| ==> p[k] < |setupOk|
    ensures |oks| == |p| && forall k :: 0 <= k < |p| ==> oks[k] == setupOk[p[k]]
  {
    seq(|p|, k requires 0 <= k < |p| => setupOk[p[k]])
  }

  /** The settings table after attempts for `numbers`, in order, each saved its number with no patch. */
  function Touched(table: FileStorage.SettingsTable, numbers: seq<string>): FileStorage.SettingsTable {
    if numbers == [] then table
    else FileStorage.Saved(Touched(table, numbers[..|numbers| - 1]), numbers[|numbers| - 1], map[])
  }

  /** The creation times after attempts for `numbers`, in order, stamped those whose setup succeeded. */
  function Stamped(times: map<string, int>, numbers: seq<string>, oks: seq<bool>, now: int): map<string, int>
    requires |oks| == |numbers|
  {
    if numbers == [] then times
    else
      var n := |numbers| - 1;
      var before := Stamped(times, numbers[..n], oks[..n], now);
      if oks[n] then before[numbers[n] := now] else before
  }

  /**
   * The attempts add an empty settings entry for each sanitised number that had none and
   * leave every existing entry as it was.
   */
  lemma {:induction false} TouchedAddsEmptyEntries(table: FileStorage.SettingsTable, numbers: seq<string>)
    ensures var t := Touched(table, numbers);
            && t.Keys == table.Keys + (set n | n in numbers :: Text.Digits(n))
            && (forall key :: key in table ==> t[key] == table[key])
            && (forall key :: key in t && key !in table ==> t[key] == map[])
  {
    if numbers != [] {
      var front := numbers[..|numbers| - 1];
      var last := numbers[|numbers| - 1];
      TouchedAddsEmptyEntries(table, front);
      FileStorage.SaveWithoutPatch(Touched(table, front), last);
      DigitsOfAppended(numbers);
    }
  }

  lemma DigitsOfAppended(numbers: seq<string>)
    requires numbers != []
    ensures (set n | n in numbers :: Text.Digits(n)) ==
            (set n | n in numbers[..|numbers| - 1] :: Text.Digits(n)) + {Text.Digits(numbers[|numbers| - 1])}
  {
    assert numbers == numbers[..|numbers| - 1] + [numbers[|numbers| - 1]];
  }

  /**
   * The attempts stamp exactly the numbers whose setup succeeded, with the loop's time, and
   * leave every other creation time as it was.
   */
  lemma {:induction false} StampedMarksStarted(times: map<string, int>, numbers: seq<string>, oks: seq<bool>, now: int)
    requires |oks| == |numbers|
    ensures var t := Stamped(times, numbers, oks, now);
            var started := set k | 0 <= k < |numbers| && oks[k] :: numbers[k];
            && t.Keys == times.Keys + started
            && (forall key :: key in started ==> t[key] == now)
            && (forall key :: key in times && key !in started ==> t[key] == times[key])
  {
    if numbers != [] {
      var n := |numbers| - 1;
      StampedMarksStarted(times, numbers[..n], oks[..n], now);
      var before := set k | 0 <= k < n && oks[..n][k] :: numbers[..n][k];
      var after := set k | 0 <= k < |numbers| && oks[k] :: numbers[k];
      assert after == before + (if oks[n] then {numbers[n]} else {}) by {
        forall k | 0 <= k < n ensures oks[..n][k] == oks[k] && numbers[..n][k] == numbers[k] { }
      }
    }
  }

  /**
   * One record of the start-up loop: nothing for a number with an open socket or a session
   * that does not restore, else an attempt for the sanitised number on a stand-in response.
   */
  method Reconnect(rec: FileStorage.SessionRecord, registry: Registry, store: FileStorage.Store, env: SessionId.Env,
                   files: set<string>, fetches: seq<SessionId.Fetch>, socket: nat, setupOk: bool, now: int)
    returns (attempt: Option<Attempt>)
    requires store.Valid() && DOWNLOAD_RETRIES <= |fetches|
    modifies registry, store
    ensures store.Valid() && store.sessions == old(store.sessions)
    ensures registry.activeSockets == old(registry.activeSockets)
    ensures var sanitized := Text.Digits(rec.number);
            attempt.Some? <==> sanitized !in old(registry.activeSockets) && Restores(rec, env, files, fetches)
    ensures attempt.None? ==> store.settings == old(store.settings) &&
                              registry.socketCreationTime == old(registry.socketCreationTime)
    ensures attempt.Some? ==>
              var a := attempt.value;
              var sanitized := Text.Digits(rec.number);
              && fresh(a) && fresh(a.res) && a.Valid()
              && a.number == sanitized && a.socket == socket && a.setupOk == setupOk
              && a.registry == registry && a.store == store && a.env == env
              && a.res.headersSent && a.res.sent == []
              && store.settings == FileStorage.Saved(old(store.settings), sanitized, map[])
              && registry.socketCreationTime ==
                   if setupOk then old(registry.socketCreationTime)[sanitized := now]
                   else old(registry.socketCreationTime)
  {
    var sanitized := Text.Digits(rec.number);
    if sanitized in registry.activeSockets {
      return None;
    }
    var dl := SessionId.SessionDownload(Some(rec.sessionId), sanitized, DOWNLOAD_RETRIES, env, files, fetches);
    if !dl.result.Restored? {
      return None;
    }
    var dummy := new Response.Dummy();
    Text.DigitsIdempotent(rec.number);
    var a := new Attempt(sanitized, dummy, registry, store, env, socket, now, setupOk);
    return Some(a);
  }

  /**
   * `startAllSessions`: for each saved record, in order, skip a number with an open socket or a
   * session that does not restore, else start an attempt on a stand-in response that is never
   * written. The saved sessions are read once; a failure in one record does not stop the loop.
   * Record `i`'s archive answers are `fetches[i]`, its setup succeeds iff `setupOk[i]`, and its
   * socket is `firstSocket + i`.
   */
  method StartAllSessions(registry: Registry, store: FileStorage.Store, env: SessionId.Env, files: set<string>,
                          fetches: seq<seq<SessionId.Fetch>>, setupOk: seq<bool>, firstSocket: nat, now: int)
    returns (attempts: seq<Attempt>)
    requires store.Valid()
    requires FetchesFit(store.sessions.Values(), fetches) && |setupOk| == |fetches|
    modifies registry, store
    ensures store.Valid() && store.sessions == old(store.sessions)
    ensures registry.activeSockets == old(registry.activeSockets)
    ensures var records := old(store.sessions).Values();
            var el := Eligible(records, old(registry.activeSockets).Keys, env, files, fetches);
            var p := Plan(el, |records|);
            && StartedFor(records, el, setupOk, firstSocket, registry, store, attempts)
            && store.settings == Touched(old(store.settings), PlannedNumbers(records, p))
            && registry.socketCreationTime ==
                 Stamped(old(registry.socketCreationTime), PlannedNumbers(records, p), PlannedSetups(setupOk, p), now)
    ensures StandIns(attempts)
  {
    var records := store.FindSessions();
    ghost var el := Eligible(records, registry.activeSockets.Keys, env, files, fetches);
    ghost var p, ns, oks;
    attempts, p, ns, oks := ReconnectAll(records, registry.activeSockets.Keys, el, env, files, fetches, setupOk,
                                         firstSocket, now, registry, store);
    ProgressComplete(records, el, setupOk, firstSocket, registry, store, attempts, p, ns, oks);
  }

  /** The start-up loop over the saved records, one `ReconnectNext` per record. */
  method ReconnectAll(records: seq<FileStorage.SessionRecord>, ghost active: set<string>, ghost el: seq<bool>,
                      env: SessionId.Env, files: set<string>, fetches: seq<seq<SessionId.Fetch>>,
                      setupOk: seq<bool>, firstSocket: nat, now: int, registry: Registry, store: FileStorage.Store)
    returns (attempts: seq<Attempt>, ghost p: seq<nat>, ghost ns: seq<string>, ghost oks: seq<bool>)
    requires store.Valid() && registry.activeSockets.Keys == active
    requires FetchesFit(records, fetches) && |setupOk| == |records|
    requires el == Eligible(records, active, env, files, fetches)
    modifies registry, store
    ensures store.Valid() && store.sessions == old(store.sessions)
    ensures registry.activeSockets == old(registry.activeSockets)
    ensures Progress(records, el, setupOk, firstSocket, registry, store, |records|, attempts, p, ns, oks)
    ensures StandIns(attempts)
    ensures store.settings == Touched(old(store.settings), ns)
    ensures registry.socketCreationTime == Stamped(old(registry.socketCreationTime), ns, oks, now)
  {
    ghost var settings0 := store.settings;
    ghost var sessions0 := store.sessions;
    ghost var sockets0 := registry.activeSockets;
    ghost var times0 := registry.socketCreationTime;
    p, ns, oks := [], [], [];
    attempts := [];
    var i := 0;
    while i < |records|
      invariant 0 <= i <= |records|
      invariant store.Valid() && store.sessions == sessions0
      invariant registry.activeSockets == sockets0
      invariant Carried(records, el, setupOk, firstSocket, registry, store, i, attempts, p, ns, oks, settings0, times0, now)
    {
      attempts, p, ns, oks := ReconnectNext(records, active, el, env, files, fetches, setupOk, firstSocket, now,
                                            registry, store, settings0, times0, i, attempts, p, ns, oks);
      i := i + 1;
    }
  }

  /** What the start-up loop carries from one record to the next. */
  ghost predicate Carried(records: seq<FileStorage.SessionRecord>, el: seq<bool>, setupOk: seq<bool>,
                          firstSocket: nat, registry: Registry, store: FileStorage.Store, i: nat,
                          attempts: seq<Attempt>, p: seq<nat>, ns: seq<string>, oks: seq<bool>,
                          settings0: FileStorage.SettingsTable, times0: map<string, int>, now: int)
    reads registry, store, set k | 0 <= k < |attempts| :: attempts[k].res
  {
    && Progress(records, el, setupOk, firstSocket, registry, store, i, attempts, p, ns, oks)
    && StandIns(attempts)
    && store.settings == Touched(settings0, ns)
    && registry.socketCreationTime == Stamped(times0, ns, oks, now)
  }

  /** Once every record has been seen, the attempts are those the plan calls for. */
  lemma ProgressComplete(records: seq<FileStorage.SessionRecord>, el: seq<bool>, setupOk: seq<bool>,
                         firstSocket: nat, registry: Registry, store: FileStorage.Store,
                         attempts: seq<Attempt>, p: seq<nat>, ns: seq<string>, oks: seq<bool>)
    requires Progress(records, el, setupOk, firstSocket, registry, store, |records|, attempts, p, ns, oks)
    ensures StartedFor(records, el, setupOk, firstSocket, registry, store, attempts)
    ensures ns == PlannedNumbers(records, Plan(el, |records|)) && oks == PlannedSetups(setupOk, Plan(el, |records|))
  {
    forall k | 0 <= k < |p|
      ensures Started(attempts[k], records[p[k]], registry, store, firstSocket + p[k], setupOk[p[k]])
    {
      assert ns[k] == Text.Digits(records[p[k]].number) && oks[k] == setupOk[p[k]];
    }
  }

  /** The attempts are one per planned record, in plan order. */
  predicate StartedFor(records: seq<FileStorage.SessionRecord>, el: seq<bool>, setupOk: seq<bool>,
                       firstSocket: nat, registry: Registry, store: FileStorage.Store, attempts: seq<Attempt>)
  {
    && |el| == |records| && |setupOk| == |records|
    && var p := Plan(el, |records|);
       && |attempts| == |p|
       && forall k :: 0 <= k < |p| ==> Started(attempts[k], records[p[k]], registry, store, firstSocket + p[k], setupOk[p[k]])
  }

  /** Every attempt answers on a stand-in response, sent in advance and never written. */
  ghost predicate StandIns(attempts: seq<Attempt>)
    reads set k | 0 <= k < |attempts| :: attempts[k].res
  {
    forall k :: 0 <= k < |attempts| ==> attempts[k].res.headersSent && attempts[k].res.sent == []
  }

  /**
   * How far the start-up loop has got after `i` records: the attempts started so far, for the
   * planned records `p`, whose numbers and setup outcomes are `ns` and `oks`.
   */
  ghost predicate Progress(records: seq<FileStorage.SessionRecord>, el: seq<bool>, setupOk: seq<bool>,
                           firstSocket: nat, registry: Registry, store: FileStorage.Store, i: nat,
                           attempts: seq<Attempt>, p: seq<nat>, ns: seq<string>, oks: seq<bool>)
  {
    && |el| == |records| && |setupOk| == |records| && i <= |records|
    && p == Plan(el, i)
    && ns == PlannedNumbers(records, p) && oks == PlannedSetups(setupOk, p)
    && |attempts| == |p|
    && forall k :: 0 <= k < |p| ==>
         && attempts[k].number == ns[k] && attempts[k].setupOk == oks[k]
         && attempts[k].socket == firstSocket + p[k]
         && attempts[k].registry == registry && attempts[k].store == store
  }

  /** One turn of the start-up loop, for record `i`. */
  method ReconnectNext(records: seq<FileStorage.SessionRecord>, ghost active: set<string>, ghost el: seq<bool>,
                       env: SessionId.Env, files: set<string>, fetches: seq<seq<SessionId.Fetch>>,
                       setupOk: seq<bool>, firstSocket: nat, now: int, registry: Registry, store: FileStorage.Store,
                       ghost settings0: FileStorage.SettingsTable, ghost times0: map<string, int>, i: nat,
                       attempts: seq<Attempt>, ghost p: seq<nat>, ghost ns: seq<string>, ghost oks: seq<bool>)
    returns (attempts': seq<Attempt>, ghost p': seq<nat>, ghost ns': seq<string>, ghost oks': seq<bool>)
    requires i < |records| && store.Valid() && registry.activeSockets.Keys == active
    requires FetchesFit(records, fetches)
    requires Carried(records, el, setupOk, firstSocket, registry, store, i, attempts, p, ns, oks, settings0, times0, now)
    requires el[i] == (Text.Digits(records[i].number) !in active && Restores(records[i], env, files, fetches[i]))
    modifies registry, store
    ensures store.Valid() && store.sessions == old(store.sessions)
    ensures registry.activeSockets == old(registry.activeSockets)
    ensures Carried(records, el, setupOk, firstSocket, registry, store, i + 1, attempts', p', ns', oks', settings0, times0, now)
  {
    var a := Reconnect(records[i], registry, store, env, files, fetches[i], firstSocket + i, setupOk[i], now);
    attempts', p', ns', oks' := attempts, p, ns, oks;
    if a.Some? {
      ProgressTaken(records, el, setupOk, firstSocket, registry, store, i, attempts, p, ns, oks, a.value);
      StandInsAppend(attempts, a.value);
      TouchedStep(settings0, ns, Text.Digits(records[i].number));
      StampedStep(times0, ns, oks, Text.Digits(records[i].number), setupOk[i], now);
      attempts' := attempts + [a.value];
      p' := p + [i];
      ns' := ns + [Text.Digits(records[i].number)];
      oks' := oks + [setupOk[i]];
    } else {
      ProgressSkipped(records, el, setupOk, firstSocket, registry, store, i, attempts, p, ns, oks);
    }
  }

  /** A record the loop starts an attempt for extends the plan, in order, by that attempt. */
  lemma ProgressTaken(records: seq<FileStorage.SessionRecord>, el: seq<bool>, setupOk: seq<bool>,
                      firstSocket: nat, registry: Registry, store: FileStorage.Store, i: nat,
                      attempts: seq<Attempt>, p: seq<nat>, ns: seq<string>, oks: seq<bool>, a: Attempt)
    requires Progress(records, el, setupOk, firstSocket, registry, store, i, attempts, p, ns, oks)
    requires i < |records| && el[i]
    requires a.number == Text.Digits(records[i].number) && a.setupOk == setupOk[i] && a.socket == firstSocket + i
    requires a.registry == registry && a.store == store
    ensures Progress(records, el, setupOk, firstSocket, registry, store, i + 1, attempts + [a], p + [i],
                     ns + [Text.Digits(records[i].number)], oks + [setupOk[i]])
  {
    PlanStep(records, el, i, setupOk);
    var attempts', p' := attempts + [a], p + [i];
    var ns', oks' := ns + [Text.Digits(records[i].number)], oks + [setupOk[i]];
    forall k | 0 <= k < |p'|
      ensures && attempts'[k].number == ns'[k] && attempts'[k].setupOk == oks'[k]
              && attempts'[k].socket == firstSocket + p'[k]
              && attempts'[k].registry == registry && attempts'[k].store == store
    {
      if k < |p| {
        assert attempts'[k] == attempts[k] && ns'[k] == ns[k] && oks'[k] == oks[k] && p'[k] == p[k];
      }
    }
  }

  /** A record the loop skips leaves the plan as it was. */
  lemma ProgressSkipped(records: seq<FileStorage.SessionRecord>, el: seq<bool>, setupOk: seq<bool>,
                        firstSocket: nat, registry: Registry, store: FileStorage.Store, i: nat,
                        attempts: seq<Attempt>, p: seq<nat>, ns: seq<string>, oks: seq<bool>)
    requires Progress(records, el, setupOk, firstSocket, registry, store, i, attempts, p, ns, oks)
    requires i < |records| && !el[i]
    ensures Progress(records, el, setupOk, firstSocket, registry, store, i + 1, attempts, p, ns, oks)
  {
    PlanStep(records, el, i, setupOk);
  }

  lemma StandInsAppend(attempts: seq<Attempt>, a: Attempt)
    requires StandIns(attempts) && a.res.headersSent && a.res.sent == []
    ensures StandIns(attempts + [a])
  {
    var all := attempts + [a];
    forall k | 0 <= k < |all| ensures all[k].res.headersSent && all[k].res.sent == [] {
      if k < |attempts| { assert all[k] == attempts[k]; }
    }
  }

  /** One more attempt saves its number's settings entry with no patch. */
  lemma TouchedStep(table: FileStorage.SettingsTable, ns: seq<string>, n: string)
    ensures Touched(table, ns + [n]) == FileStorage.Saved(Touched(table, ns), n, map[])
  {
    AppendOne(ns, n);
  }

  /** One more attempt stamps its number when its setup succeeds. */
  lemma StampedStep(times: map<string, int>, ns: seq<string>, oks: seq<bool>, n: string, ok: bool, now: int)
    requires |oks| == |ns|
    ensures Stamped(times, ns + [n], oks + [ok], now) ==
              if ok then Stamped(times, ns, oks, now)[n := now] else Stamped(times, ns, oks, now)
  {
    AppendOne(ns, n);
    AppendOne(oks, ok);
  }

  lemma AppendOne<T>(s: seq<T>, x: T)
    ensures (s + [x])[..|s|] == s && (s + [x])[|s|] == x && |s + [x]| == |s| + 1
  {
  }

  /** One record further, the plan grows by that record exactly when an attempt starts for it. */
  lemma PlanStep(records: seq<FileStorage.SessionRecord>, el: seq<bool>, i: nat, setupOk: seq<bool>)
    requires |el| == |records| && i < |records| && |setupOk| == |records|
    ensures var p := Plan(el, i);
            var q := Plan(el, i + 1);
            var ns := PlannedNumbers(records, p);
            var oks := PlannedSetups(setupOk, p);
            && (el[i] ==>
                  && q == p + [i]
                  && PlannedNumbers(records, q) == ns + [Text.Digits(records[i].number)]
                  && PlannedSetups(setupOk, q) == oks + [setupOk[i]]
                  && PlannedNumbers(records, q)[..|p|] == ns
                  && PlannedSetups(setupOk, q)[..|p|] == oks)
            && (!el[i] ==> q == p)
  {
    var p := Plan(el, i);
    var q := Plan(el, i + 1);
    assert q == if el[i] then p + [i] else p;
    if el[i] {
      var ns, nq := PlannedNumbers(records, p), PlannedNumbers(records, q);
      assert nq == ns + [Text.Digits(records[i].number)] by {
        forall k | 0 <= k < |p| ensures nq[k] == ns[k] { assert q[k] == p[k]; }
      }
      var oks, oq := PlannedSetups(setupOk, p), PlannedSetups(setupOk, q);
      assert oq == oks + [setupOk[i]] by {
        forall k | 0 <= k < |p| ensures oq[k] == oks[k] { assert q[k] == p[k]; }
      }
      AppendOne(ns, Text.Digits(records[i].number));
      AppendOne(oks, setupOk[i]);
    }
  }

  /** An attempt the start-up loop started for a record. */
  predicate Started(a: Attempt, rec: FileStorage.SessionRecord, registry: Registry, store: FileStorage.Store,
                    socket: nat, setupOk: bool)
  {
    && a.number == Text.Digits(rec.number) && a.socket == socket && a.setupOk == setupOk
    && a.registry == registry && a.store == store
  }
}
