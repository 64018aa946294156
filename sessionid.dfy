/**
 * Session ids (main.js:187-231, 377-388): the tagged string a connected number's
 * credentials are saved under, `SESSION-ID~<code>` for a copy in the remote archive
 * and `LOCAL~<path>` for the local file, how it is produced after an upload, and how
 * `sessionDownload` restores credentials from it with its three-attempt schedule.
 */
module SessionId {
  import opened Wrappers
  import Text

  const SESSION_TAG := "SESSION-ID~"
  const LOCAL_TAG := "LOCAL~"
  const MEGA_FILE_URL := "https://mega.nz/file/"
  const CREDS_FILE := "creds.json"

  const MSG_INVALID_ID := "Invalid session ID format"
  const MSG_LOCAL_MISSING := "Local creds not found"
  const MSG_UNSUPPORTED := "Unsupported sessionId type"

  /** Wait before the next download after a failed attempt number `attempt` (1-based). */
  function RetryWaitMs(attempt: nat): nat {
    2000 * attempt
  }

  // ---------------------------------------------------------------------
  // Paths, on POSIX, without `.`/`..` normalisation
  // ---------------------------------------------------------------------

  /** The process's working directory and the absolute session base directory. */
  datatype Env = Env(cwd: string, sessionBase: string)

  predicate IsAbsolute(p: string) {
    |p| > 0 && p[0] == '/'
  }

  function JoinPath(a: string, b: string): string {
    a + "/" + b
  }

  /** `path.isAbsolute(p) ? p : path.resolve(cwd, p)` */
  function Resolve(cwd: string, p: string): string {
    if IsAbsolute(p) then p else JoinPath(cwd, p)
  }

  /** `path.relative(cwd, p)` for a path below `cwd`; other paths are kept absolute. */
  function Relative(cwd: string, p: string): string {
    var dir := cwd + "/";
    if Text.StartsWith(p, dir) && |p| > |dir| && p[|dir|] != '/' then p[|dir|..] else p
  }

  /** Resolving a relative form against the same directory gives the absolute path back. */
  lemma ResolveRelative(cwd: string, p: string)
    requires IsAbsolute(p)
    ensures Resolve(cwd, Relative(cwd, p)) == p
  {
    var dir := cwd + "/";
    if Text.StartsWith(p, dir) && |p| > |dir| && p[|dir|] != '/' {
      var r := p[|dir|..];
      assert !IsAbsolute(r);
      calc {
        Resolve(cwd, r);
        dir + r;
        p[..|dir|] + p[|dir|..];
        p;
      }
    }
  }

  /** `path.join(SESSION_BASE_PATH, 'session_' + number)` */
  function SessionDir(env: Env, number: string): string {
    JoinPath(env.sessionBase, "session_" + number)
  }

  function CredsPath(env: Env, number: string): string {
    JoinPath(SessionDir(env, number), CREDS_FILE)
  }

  // ---------------------------------------------------------------------
  // Encoding, after the `open` upload (main.js:377-388)
  // ---------------------------------------------------------------------

  /** How `uploadCredsToMega` ended: the share link it returned, or the error it threw. */
  datatype Upload = Uploaded(link: string) | UploadFailed(message: string)

  /**
   * The session id saved for an upload outcome: `SESSION-ID~` + the link's piece after the
   * archive's file URL, no id (None, nothing saved) for a link without that URL, and
   * `LOCAL~` + the creds path relative to the working directory when the upload threw.
   */
  function EncodeSid(upload: Upload, cwd: string, credsPath: string): Option<string> {
    match upload
    case Uploaded(link) =>
      if Text.Contains(link, MEGA_FILE_URL) then Some(SESSION_TAG + Text.Split(link, MEGA_FILE_URL)[1])
      else None
    case UploadFailed(_) =>
      Some(LOCAL_TAG + Relative(cwd, credsPath))
  }

  // ---------------------------------------------------------------------
  // Decoding (main.js:192-207)
  // ---------------------------------------------------------------------

  /** What a session id asks `sessionDownload` to do. */
  datatype SidKind = InvalidSid | LocalSid(path: string) | MegaSid(code: string) | UnsupportedSid

  /** The tag test of `sessionDownload`; None stands for a session id that is not a string. */
  function Parse(sessionId: Option<string>): SidKind {
    match sessionId
    case None => InvalidSid
    case Some(s) =>
      if s == "" then InvalidSid
      else if Text.StartsWith(s, LOCAL_TAG) then LocalSid(s[|LOCAL_TAG|..])
      else if Text.StartsWith(s, SESSION_TAG) then MegaSid(Text.SecondPiece(s, SESSION_TAG))
      else UnsupportedSid
  }

  function MegaUrl(code: string): string {
    MEGA_FILE_URL + code
  }

  /**
   * Round trip through the archive: a share link made of the archive's file URL and a code
   * with no further URL and no session tag is saved under an id that downloads that link.
   */
  lemma {:induction false} MegaRoundTrip(code: string, cwd: string, credsPath: string)
    requires !Text.Contains(code, MEGA_FILE_URL) && !Text.Contains(code, SESSION_TAG)
    ensures var sid := EncodeSid(Uploaded(MegaUrl(code)), cwd, credsPath);
            sid == Some(SESSION_TAG + code) && Parse(sid) == MegaSid(code) && MegaUrl(Parse(sid).code) == MegaUrl(code)
  {
    var link := MegaUrl(code);
    Text.SecondPieceAfterPrefix(MEGA_FILE_URL, code);
    Text.IndexOfPrefix(link, MEGA_FILE_URL);
    var sid := SESSION_TAG + code;
    assert EncodeSid(Uploaded(link), cwd, credsPath) == Some(sid);
    assert !Text.StartsWith(sid, LOCAL_TAG) by { assert sid[0] == 'S'; }
    assert Text.StartsWith(sid, SESSION_TAG);
    assert sid[|SESSION_TAG|..] == code;
    Text.IndexOfPrefix(sid, SESSION_TAG);
    Text.SecondPieceAfterPrefix(SESSION_TAG, code);
  }

  /** A link without the archive's file URL yields no session id. */
  lemma ForeignLinkUnsaved(link: string, cwd: string, credsPath: string)
    requires !Text.Contains(link, MEGA_FILE_URL)
    ensures EncodeSid(Uploaded(link), cwd, credsPath) == None
  {
  }

  /**
   * Round trip through the local fallback: when the upload throws, the id saved names the
   * creds file relative to the working directory, and decoding it resolves to that file.
   */
  lemma LocalRoundTrip(message: string, cwd: string, credsPath: string)
    requires IsAbsolute(credsPath)
    ensures var sid := EncodeSid(UploadFailed(message), cwd, credsPath);
            sid.Some? && Parse(sid).LocalSid? && Resolve(cwd, Parse(sid).path) == credsPath
  {
    var rel := Relative(cwd, credsPath);
    var sid := LOCAL_TAG + rel;
    assert Text.StartsWith(sid, LOCAL_TAG);
    assert sid[|LOCAL_TAG|..] == rel;
    ResolveRelative(cwd, credsPath);
  }

  // ---------------------------------------------------------------------
  // `sessionDownload`: restoring credentials from a session id
  // ---------------------------------------------------------------------

  /** How one download attempt from the archive ended. */
  datatype Fetch = Fetched | FetchFailed(message: string)

  datatype Restore = Restored(path: string) | RestoreFailed(error: string)

  /** The result of `sessionDownload`, the downloads it made and the waits between them. */
  datatype DownloadRun = DownloadRun(result: Restore, downloads: nat, waits: seq<nat>)

  /** The first of the first `n` attempts that succeeds. */
  function FirstFetched(fetches: seq<Fetch>, n: nat): (r: Option<nat>)
    requires n <= |fetches|
    ensures r.Some? ==> r.value < n && fetches[r.value].Fetched?
    ensures r.Some? ==> forall k :: 0 <= k < r.value ==> fetches[k].FetchFailed?
    ensures r.None? ==> forall k :: 0 <= k < n ==> fetches[k].FetchFailed?
  {
    if n == 0 then None
    else match FirstFetched(fetches, n - 1)
      case Some(k) => Some(k)
      case None => if fetches[n - 1].Fetched? then Some(n - 1) else None
  }

  /** The waits after `k` failed attempts: 2000 ms, 4000 ms, ... */
  function Waits(k: nat): (w: seq<nat>)
    ensures |w| == k && forall i :: 0 <= i < k ==> w[i] == RetryWaitMs(i + 1)
  {
    seq(k, (i: nat) => RetryWaitMs(i + 1))
  }

  /**
   * What `sessionDownload(sessionId, number, retries)` does, as a reference definition:
   * attempt `k` (0-based) of an archive download ends as `fetches[k]`, and the local
   * file system holds the paths in `files`.
   */
  function Download(sessionId: Option<string>, number: string, retries: int, env: Env,
                    files: set<string>, fetches: seq<Fetch>): DownloadRun
    requires retries <= |fetches|
  {
    match Parse(sessionId)
    case InvalidSid => DownloadRun(RestoreFailed(MSG_INVALID_ID), 0, [])
    case LocalSid(p) =>
      var resolved := Resolve(env.cwd, p);
      DownloadRun(if resolved in files then Restored(resolved) else RestoreFailed(MSG_LOCAL_MISSING), 0, [])
    case MegaSid(_) =>
      if retries <= 0 then DownloadRun(RestoreFailed(MSG_UNSUPPORTED), 0, [])
      else (match FirstFetched(fetches, retries)
        case Some(k) => DownloadRun(Restored(CredsPath(env, Text.Digits(number))), k + 1, Waits(k))
        case None => DownloadRun(RestoreFailed(fetches[retries - 1].message), retries, Waits(retries - 1)))
    case UnsupportedSid => DownloadRun(RestoreFailed(MSG_UNSUPPORTED), 0, [])
  }

  /** `sessionDownload`, with its attempt loop. */
  method SessionDownload(sessionId: Option<string>, number: string, retries: int, env: Env,
                         files: set<string>, fetches: seq<Fetch>) returns (run: DownloadRun)
    requires retries <= |fetches|
    ensures run == Download(sessionId, number, retries, env, files, fetches)
  {
    var credsFilePath := CredsPath(env, Text.Digits(number));
    var kind := Parse(sessionId);
    if kind.InvalidSid? {
      return DownloadRun(RestoreFailed(MSG_INVALID_ID), 0, []);
    }
    if kind.LocalSid? {
      var resolved := Resolve(env.cwd, kind.path);
      if resolved !in files {
        return DownloadRun(RestoreFailed(MSG_LOCAL_MISSING), 0, []);
      }
      return DownloadRun(Restored(resolved), 0, []);
    }
    if kind.MegaSid? {
      var attempt := 1;
      var waits: seq<nat> := [];
      while attempt <= retries
        invariant 1 <= attempt <= (if retries < 1 then 1 else retries)
        invariant forall k :: 0 <= k < attempt - 1 ==> fetches[k].FetchFailed?
        invariant waits == Waits(attempt - 1)
      {
        if fetches[attempt - 1].Fetched? {
          FirstFetchedAt(fetches, retries, attempt - 1);
          return DownloadRun(Restored(credsFilePath), attempt, waits);
        }
        if attempt < retries {
          waits := waits + [RetryWaitMs(attempt)];
        } else {
          FirstFetchedNone(fetches, retries);
          return DownloadRun(RestoreFailed(fetches[attempt - 1].message), attempt, waits);
        }
        attempt := attempt + 1;
      }
    }
    return DownloadRun(RestoreFailed(MSG_UNSUPPORTED), 0, []);
  }

  lemma FirstFetchedAt(fetches: seq<Fetch>, n: nat, k: nat)
    requires k < n <= |fetches|
    requires fetches[k].Fetched? && forall j :: 0 <= j < k ==> fetches[j].FetchFailed?
    ensures FirstFetched(fetches, n) == Some(k)
  {
  }

  lemma FirstFetchedNone(fetches: seq<Fetch>, n: nat)
    requires n <= |fetches|
    requires forall j :: 0 <= j < n ==> fetches[j].FetchFailed?
    ensures FirstFetched(fetches, n) == None
  {
  }

  /**
   * The archive schedule: at most `retries` downloads, a wait of 2000 ms times the attempt
   * number between consecutive ones and none after the last; success exactly when one of
   * those downloads succeeds, and then the creds file of the number is the result.
   */
  lemma MegaSchedule(sessionId: Option<string>, number: string, retries: int, env: Env,
                     files: set<string>, fetches: seq<Fetch>)
    requires retries <= |fetches| && retries >= 1
    requires Parse(sessionId).MegaSid?
    ensures var run := Download(sessionId, number, retries, env, files, fetches);
            && 1 <= run.downloads <= retries
            && |run.waits| == run.downloads - 1
            && (forall i :: 0 <= i < |run.waits| ==> run.waits[i] == 2000 * (i + 1))
            && (run.result.Restored? <==> exists k :: 0 <= k < retries && fetches[k].Fetched?)
            && (run.result.Restored? ==> run.result.path == CredsPath(env, Text.Digits(number)))
            && (run.result.RestoreFailed? ==> run.downloads == retries)
  {
    if FirstFetched(fetches, retries).None? {
      assert forall k :: 0 <= k < retries ==> fetches[k].FetchFailed?;
    }
  }

  /** A local id restores exactly when the path it names, resolved, exists. */
  lemma LocalRestoresIffExists(sessionId: Option<string>, number: string, retries: int, env: Env,
                               files: set<string>, fetches: seq<Fetch>)
    requires retries <= |fetches|
    requires Parse(sessionId).LocalSid?
    ensures var run := Download(sessionId, number, retries, env, files, fetches);
            && run.downloads == 0
            && (run.result.Restored? <==> Resolve(env.cwd, Parse(sessionId).path) in files)
  {
  }

  /** A missing, non-string or empty id is refused, and so is one with neither tag. */
  lemma MalformedRefused(sessionId: Option<string>, number: string, retries: int, env: Env,
                         files: set<string>, fetches: seq<Fetch>)
    requires retries <= |fetches|
    ensures sessionId.None? || sessionId == Some("") ==>
            Download(sessionId, number, retries, env, files, fetches).result == RestoreFailed(MSG_INVALID_ID)
    ensures sessionId.Some? && sessionId.value != "" &&
            !Text.StartsWith(sessionId.value, LOCAL_TAG) && !Text.StartsWith(sessionId.value, SESSION_TAG) ==>
            Download(sessionId, number, retries, env, files, fetches).result == RestoreFailed(MSG_UNSUPPORTED)
  {
  }

  /**
   * End to end: when the upload threw, the id saved restores from the same creds file,
   * as long as that file still exists.
   */
  lemma LocalFallbackRestores(message: string, number: string, retries: int, env: Env,
                              files: set<string>, fetches: seq<Fetch>)
    requires retries <= |fetches|
    requires IsAbsolute(env.sessionBase)
    ensures var credsPath := CredsPath(env, number);
            var sid := EncodeSid(UploadFailed(message), env.cwd, credsPath);
            var run := Download(sid, number, retries, env, files, fetches);
            run.result == (if credsPath in files then Restored(credsPath) else RestoreFailed(MSG_LOCAL_MISSING))
  {
    LocalRoundTrip(message, env.cwd, CredsPath(env, number));
  }
}
