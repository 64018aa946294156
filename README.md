# A model of the Min-Bot session supervisor, message pipeline, store and plugins

Min-Bot is a WhatsApp bot server that runs one linked-device session per phone number.
An HTTP route (`GET /?number=…`) admits a number and starts a connection attempt for it.
The attempt answers its one HTTP response with a pairing code, a QR payload, a success,
a time-out or an error. It keeps two process-wide registries: the open sockets by number,
and the time each number's socket was created.

A connected session is saved in a JSON-backed store under a tagged session id. The id is
either `SESSION-ID~<code>` for a copy in the MEGA file archive or `LOCAL~<path>` for the
local creds file. At start-up every saved session is restored and reconnected.

Every inbound message runs through the same pipeline:
- it is shown to every plugin;
- then, when its body starts with the prefix, it is dispatched as a command to the first
  plugin that lists it.

Four plugins are modelled:
- `group`: kick, promote, demote, invite and leave;
- `welcome`: a toggle meant to store custom greetings, and the greetings sent on
  membership updates;
- `autorespond`: keyword replies;
- `menu`: the command list with the bot's uptime.

## Layout

| file | module | what it holds |
|---|---|---|
| `wrappers.dfy` | `Wrappers` | `Option` |
| `text.dfy` | `Text` | JavaScript string operations the code uses (digit filtering, `indexOf`, `split`/`join` on a string, `split(/ +/)`, `trim`, `replace('.', '')`, lowercasing, number formatting) |
| `storage.dfy` | `FileStorage` | the settings table and the sessions table, pure operations on them, and the `Store` class whose methods update them |
| `disconnect.dfy` | `Disconnect` | the status-code `switch` of a closed connection |
| `sessionid.dfy` | `SessionId` | session ids: encoding after an upload, decoding, and `sessionDownload` with its retry loop |
| `pairing.dfy` | `Pairing` | the pairing-code request loop |
| `supervisor.dfy` | `Supervisor` | the admission decision, the one-shot `Response`, the `Registry` of sockets and creation times, one connection attempt as the `Attempt` class (one method per event), the start-up loop and the exit handler |
| `pipeline.dfy` | `Pipeline` | message filtering, body and command extraction, the pass over all plugins, command dispatch |
| `group.dfy`, `welcome.dfy`, `autorespond.dfy`, `menu.dfy` | `Group`, `Welcome`, `AutoRespond`, `Menu` | the plugins |

### How the model is built

- **State that changes is imperative.** The store, the registries, a response and a
  connection attempt are classes. Their methods state their whole new state in terms of
  pure functions on the old state: `Saved`, `Upsert`, `Classify`, `EncodeSid`, and so on.
- **Loops are `while`/`for` loops**, each proved against a reference function:
  - the pairing loop;
  - the download retries;
  - the start-up loop;
  - the exit loop;
  - the plugin passes;
  - the dispatch;
  - the greeting loop.
- **The outside world arrives as arguments.** The socket library, the file system, the
  archive and the clock are not modelled; what the code learns from them is an argument:
  - the outcome of each pairing request or archive download;
  - whether a creds file exists;
  - the upload's link or error;
  - the status code of a close;
  - whether a plugin handler throws;
  - the current time.
- **Handlers are atomic.** Each event handler runs to completion before the next. An
  attempt is driven by calling its methods in the order its events arrive.

### Behaviour of the code worth knowing

- **The exit handler** (main.js:522-528) loops over `activeSockets` only. A number whose
  attempt never opened therefore keeps its entry in `socketCreationTime`.
- **The QR reply** (main.js:314, 318) tests only `headersSent` and does not set
  `responded`. It still cannot answer twice, because `send` sets `headersSent`.
- **The connect timer** (main.js:455) is armed only once the pairing loop has ended.
- **A setup failure** (main.js:466-471) happens after the settings entry was saved
  (main.js:270).
- **The message pass** (main.js:137) calls the handler of *every* plugin, not only the
  keyword responder, and without `args`. As a result:
  - every private message gets the group plugin's "groups only" reply (`Group.NotAGroup`);
  - a group command seen in that pass fails on `args[0]` (`Group.NoArgsFails`);
  - the menu is sent for any message.
- **Plugins re-read the command from the raw text.** `group` and `welcome` take the first
  space-separated token, without the first `.`, lowercased. The dispatch's prefix and
  tokenisation play no part (`Pipeline.RawCommandName`).

## Model

| member | source | states |
|---|---|---|
| Text.Digits | main.js:266 | `replace(/[^0-9]/g, '')` keeps only digits and never lengthens the text |
| Text.DigitsAppend | main.js:266 | filtering digits distributes over concatenation |
| Text.DigitsOfDigitString | main.js:266 | a text of digits is left unchanged |
| Text.DigitsOfNonDigitString | main.js:266 | a text with no digit becomes empty |
| Text.DigitsIdempotent | main.js:510 | sanitising twice (the router at 510, then the attempt at 266) is the same as once |
| Text.IndexOf | main.js:380 | the first position at which the pattern occurs, or none when it occurs nowhere |
| Text.ContainsIff | plugins/autorespond.js:20 | `includes` holds exactly when the pattern occurs at some position |
| Text.IndexOfPrefix | main.js:197 | a text starting with a pattern has it first at position 0 |
| Text.JoinSplit | plugins/welcome.js:10 | `split(sep)` then `join(sep)` gives the text back |
| Text.SplitPiecesFree | main.js:380 | no piece of `split(sep)` contains the separator |
| Text.Before | file-storage.js:60 | `split(sep)[0]`: the whole text without a separator, else the text before the first one |
| Text.AfterIsSuffix | plugins/welcome.js:10 | the pieces after the first, joined again, are the text after the first separator, or "" without one |
| Text.SecondPieceAfterPrefix | main.js:206 | `(sep + t).split(sep)[1]` is `t` when `t` holds no separator |
| Text.SecondPiece | main.js:206 | `split(sep)[1]` of a text starting with `sep` is the text after it, up to the next `sep` |
| Text.SplitAtFirst | plugins/welcome.js:9-10 | for `w + ' ' + rest` with no space in `w`: the first piece is `w` and the rest is `rest` |
| Text.WordsHaveNoSpace | main.js:141 | no token of `split(/ +/)` holds a space |
| Text.WordsJoin | main.js:141 | `split(/ +/)` of non-empty spaceless words joined by single spaces gives the words back |
| Text.Trim | main.js:114 | `trim()` is the slice of the text left after cutting only white space from its two ends, and it neither starts nor ends with white space |
| Text.TrimUnchanged | main.js:114 | a text with no white space at either end is its own trim |
| Text.RemoveFirst | plugins/group.js:7 | `replace('.', '')` leaves a text without `.` unchanged, and otherwise removes exactly its first `.`, keeping everything before and after it |
| Text.ToLower | main.js:142 | lowercasing keeps the length and maps each character on its own |
| Text.NatToString | plugins/menu.js:23 | `${n}` for a natural number: a non-empty string of digits that denotes `n` in decimal, with no leading zero unless `n` is 0 |
| FileStorage.StoredEntryReturned | file-storage.js:42-51 | a stored entry is returned as it is, with no default merged in |
| FileStorage.DefaultsOnlyWhenMissing | file-storage.js:42-51 | the defaults are returned exactly when the number has no entry (or an entry equal to them) |
| FileStorage.SameDigitsShareEntry | file-storage.js:42-57 | inputs with the same digits read and write the same entry |
| FileStorage.SaveMerges | file-storage.js:53-57 | right-biased shallow merge: patched fields take the patch's value, other fields stay, no field is added besides the patch's |
| FileStorage.SaveLeavesOthers | file-storage.js:53-57 | a save changes no other number's settings |
| FileStorage.SaveIdempotent | file-storage.js:53-57 | saving a patch twice is the same as saving it once |
| FileStorage.SaveWithoutPatch | file-storage.js:53-57 | a save with no patch adds `{}` for a new number and changes nothing otherwise |
| FileStorage.EmptySaveHidesDefaults | file-storage.js:42-57 | after a save with no patch on a new number that number reads as `{}`, no longer as the defaults |
| FileStorage.SessionTable.Values | file-storage.js:64-66 | `Object.values`: one record per key, in the keys' insertion order |
| FileStorage.EmptySessions | file-storage.js:11 | the empty sessions object is a valid table |
| FileStorage.UpsertKeepsValid | file-storage.js:59-62 | an upsert keeps every key listed exactly once |
| FileStorage.UpsertThenFind | file-storage.js:59-66 | after an upsert the user id is listed with the new session id and its text before `@`, and every other record is unchanged |
| FileStorage.UpsertOrder | file-storage.js:59-62 | a new user id is listed last, a known one keeps its place; the list has one entry per key |
| FileStorage.OrderCardinality | file-storage.js:64-66 | as many records are found as there are keys |
| FileStorage.Store.constructor | file-storage.js:9-31 | the store starts with the tables it was loaded with |
| FileStorage.Store.GetSettings | file-storage.js:42-51 | the stored entry for the number's digits, or the defaults when there is none |
| FileStorage.Store.SaveSettings | file-storage.js:53-57 | the settings become the merged table; the sessions are untouched |
| FileStorage.Store.UpsertSession | file-storage.js:59-62 | the sessions become the upserted table; the settings are untouched |
| FileStorage.Store.FindSessions | file-storage.js:64-66 | the records of the saved user ids, in first-insertion order, one per id |
| Disconnect.Classify | main.js:323-349 | the 401 and 500 codes wipe the session, only 515 restarts, and each named code has its message. Any other or missing code gets "Unexpected disconnection…"; the "terminated" message is unreachable, because the switch has a case for 401 |
| SessionId.ResolveRelative | main.js:384 | resolving the relative creds path against the working directory gives the absolute path back |
| SessionId.MegaRoundTrip | main.js:377-388 | a MEGA link's code is saved as `SESSION-ID~code`, and decoding that id (main.js:205-207) yields the same download URL |
| SessionId.ForeignLinkUnsaved | main.js:380-388 | a link without the archive's file URL yields no id, so nothing is saved |
| SessionId.LocalRoundTrip | main.js:381-385 | when the upload throws, the `LOCAL~` id saved resolves, once decoded (main.js:197-199), to the creds file |
| SessionId.FirstFetched | main.js:209-227 | the first successful download among the first `n`, every earlier one failed; none when all failed |
| SessionId.Waits | main.js:224 | after `k` failed downloads the waits are 2000, 4000, … ms |
| SessionId.SessionDownload | main.js:187-231 | the method, with its attempt loop, returns the reference run `Download` |
| SessionId.MegaSchedule | main.js:205-228 | at most `retries` downloads, 2000 × attempt ms between them and none after the last; restored iff some download succeeds, then to the number's creds file; a failure makes every download |
| SessionId.LocalRestoresIffExists | main.js:196-202 | a `LOCAL~` id downloads nothing and restores exactly when its resolved path exists |
| SessionId.MalformedRefused | main.js:192-230 | a missing, non-string or empty id is "Invalid session ID format"; one with neither tag is "Unsupported sessionId type" |
| SessionId.LocalFallbackRestores | main.js:381-385 | end to end: the id saved after a failed upload restores that creds file while it exists |
| Pairing.RequestPairingCode | main.js:423-445 | the loop's run is explained by the outcomes. It makes at most three failed requests, each after a 1500 ms wait, backs off 600 then 900 ms, and ends with the first truthy code, with exhaustion after three throws, or pending when the outcomes run out |
| Pairing.ThreeFailuresSchedule | main.js:427-445 | three throws in a row wait 1500, 600, 1500, 900 and 1500 ms |
| Supervisor.Admit | main.js:505-515 | a missing or empty number gets 400 "required"; fewer than 10 digits get 400 "format"; an open socket gets 200 `already_connected`; only the remaining case starts an attempt, for the raw number |
| Supervisor.AdmittedNumberResanitises | main.js:510-515 | the attempt's re-sanitised number is the one admission checked: at least 10 digits, no open socket |
| Supervisor.Response.constructor | main.js:505 | a fresh response has sent nothing |
| Supervisor.Response.Dummy | main.js:493 | the start-up stand-in already reports `headersSent` and has sent nothing |
| Supervisor.Response.Send | main.js:354-357 | a send is allowed only before headers are sent, and records the one reply |
| Supervisor.Registry.constructor | main.js:49-50 | both maps start empty |
| Supervisor.Registry.Stamp | main.js:293 | the creation time is set for the number; the sockets are unchanged |
| Supervisor.Registry.Register | main.js:362 | the socket is registered for the number; the times are unchanged |
| Supervisor.Registry.Evict | main.js:351-352 | the number leaves both maps |
| Supervisor.Registry.Exit | main.js:522-528 | every open socket is closed and its number leaves both maps; creation times of numbers without a socket remain |
| Supervisor.Attempt.constructor | main.js:266-296 | the sanitised number's settings are saved with no patch. On success the creation time is stamped; otherwise the catch (main.js:466-471) answers 500 naming the raw number, unless already sent |
| Supervisor.Attempt.Authenticate | main.js:423-455 | unregistered credentials run the pairing loop: a code is answered 200 `pairing_code_sent`, exhaustion 500, only if nothing was answered. The timer is armed once the loop is over, and immediately when the credentials are registered |
| Supervisor.Attempt.Qr | main.js:309-321 | a QR is answered 200 `qr`, or `qr_string` with the payload when rendering fails, only while nothing has been sent |
| Supervisor.Attempt.Close | main.js:323-357 | the classified error is recorded; 401/500 wipe the session, 515 closes the socket and schedules one restart; the number leaves both maps; a 500 with the error is sent if nothing was answered; afterwards the response is sent |
| Supervisor.Attempt.Open | main.js:360-417 | the socket is registered. Without a creds file: 500 "File not found" and nothing saved. Otherwise the encoded id, if any, is upserted for the user id and the answer is 200 `connected`; either answer only if none was sent |
| Supervisor.Attempt.Timeout | main.js:455-465 | only an attempt neither connected nor answered is answered 408; then the registered socket is closed and the number leaves both maps; otherwise nothing changes |
| Supervisor.Attempt.Restart | main.js:342-346 | one pending restart becomes a fresh attempt for the sanitised number on the same, already sent, response |
| Supervisor.Route | main.js:505-520 | an answered request sends exactly the admission's reply and changes neither registry nor store; an admitted one gets a fresh attempt for the raw number on a fresh response, the number's settings are saved with no patch, and then either its creation time is stamped and nothing is sent, or (setup failure) the times stay and the response is the 500 naming the raw number |
| Supervisor.SecondRequestWhilePairing | main.js:505-515 | a number enters `activeSockets` only on `open` (main.js:362), so after a first attempt's pairing block a second request for the same number is admitted too |
| Supervisor.Plan | main.js:480-497 | the records the start-up loop starts attempts for: strictly increasing indices, each exactly when eligible |
| Supervisor.TouchedAddsEmptyEntries | main.js:480-497 | the start-up attempts add `{}` for each number without settings and leave the other entries as they were |
| Supervisor.StampedMarksStarted | main.js:480-497 | the start-up attempts stamp exactly the numbers whose setup succeeded; other creation times are unchanged |
| Supervisor.Reconnect | main.js:481-496 | a record gets an attempt iff its number has no open socket and its session restores; the attempt is for the sanitised number on a stand-in that is never written |
| Supervisor.ReconnectAll | main.js:480-497 | the loop's attempts are those of the plan, in order; settings and times are the planned saves and stamps; the sessions and sockets are untouched |
| Supervisor.StartAllSessions | main.js:475-502 | the saved records are read once; one attempt per eligible record, in order, each on a stand-in response; the settings and creation times are exactly those attempts' saves and stamps |
| Pipeline.Prefix | main.js:115 | `PREFIX || '.'`: never empty, and the environment's value when it is non-empty |
| Pipeline.StatusBranchUnreachable | main.js:106-135 | a message not skipped is not from the status broadcast, so the branch at 125-135 never runs |
| Pipeline.ParseCommand | main.js:139-143 | a command is read exactly when the body starts with the prefix |
| Pipeline.CommandTokens | main.js:141-143 | the command name and arguments hold no space, and the name has no upper-case letter |
| Pipeline.ParseCommandRoundTrip | main.js:141-143 | the prefix, then a name and arguments separated by single spaces, parse back to the lowercased name and the arguments |
| Pipeline.RawCommandNameOf | plugins/group.js:7 | the plugins read `.name rest` as the lowercased name, whatever follows |
| Pipeline.WithHandler | main.js:71-81 | the plugins with a handler, in load order |
| Pipeline.RunPluginsForMessage | main.js:71-81 | every plugin with a handler is called, in order, whatever its command list; a throwing one does not stop the pass |
| Pipeline.FirstServing | main.js:146-159 | the first plugin that lists the command and has a handler; none when no plugin does |
| Pipeline.ErrorText | main.js:155 | `e.message || e` is never empty, and is the message when there is one |
| Pipeline.DispatchCommand | main.js:145-163 | the loop stops at the first serving plugin and returns the reference dispatch `DispatchOf` |
| Pipeline.FirstMatchWins | main.js:146-159 | the first serving plugin answers the command; its failure is replied `Command failed: …` and not retried on a later plugin |
| Pipeline.UnservedIsUnknown | main.js:161-163 | the "Unknown command" reply comes exactly when no plugin serves the command |
| Pipeline.RunPluginsForCommand | main.js:57-69 | the unused helper calls the serving handlers in order, skipping past those that throw; it is true iff the last one called returned normally, having called every earlier serving plugin |
| Pipeline.HandleMessage | main.js:105-163 | one message handled gives the reference outcome `OutcomeOf` |
| Pipeline.OnMessages | main.js:103-168 | each message of a batch, in order, gives its reference outcome |
| Group.Target | plugins/group.js:24 | the target is never empty: the digits of the first argument, or `undefined`, plus `@s.whatsapp.net` |
| Group.NotAGroup | plugins/group.js:9 | outside a group the only effect is the "groups only" reply |
| Group.AdminGate | plugins/group.js:12-19 | in a group the command is refused exactly when the metadata shows the sender is not an admin |
| Group.MetadataFailureSkipsGate | plugins/group.js:17-19 | when the metadata lookup throws, the admin test is skipped |
| Group.TargetAlwaysUsed | plugins/group.js:23-43 | with arguments, kick/promote/demote always act on the target; the "Provide phone number" replies never come |
| Group.KickWithoutArgument | plugins/group.js:23-28 | kicking with no argument removes `undefined@s.whatsapp.net` |
| Group.UnlistedDoesNothing | plugins/group.js:22-55 | an unlisted command past the tests has no effect |
| Group.FailureGivesOneReply | plugins/group.js:56-58 | a throwing action is followed by exactly one reply, the failure text |
| Group.InviteOnlyReplies | plugins/group.js:44-50 | `invite` never acts on the group and replies once |
| Group.NoArgsFails | plugins/group.js:23-46 | called without arguments, as by the message pass, every listed command but `leave` fails on `args[0]` |
| Welcome.HandleAsWritten | plugins/welcome.js:8-16 | a toggle command with a parameter throws "storage.updateSettings is not a function"; anything else does nothing |
| Welcome.NameAndParam | plugins/welcome.js:8-10 | the text `.name param` is read as the lowercased name and the trimmed parameter |
| Welcome.ToggleText | plugins/welcome.js:8-12 | `.welcome p` and `.goodbye p` are read back as that toggle and parameter |
| Welcome.ToggleThrows | plugins/welcome.js:12-16 | every toggle, as written, throws before saving or replying |
| Welcome.ToggleCommandFails | main.js:146-158 | dispatched as a command, that throw becomes the reply `Command failed: storage.updateSettings is not a function` |
| Welcome.HandleIntended | plugins/welcome.js:12-16 | with `saveSettings` in its place, a toggle with a parameter replies `<cmd> message updated.`; anything else leaves the table alone |
| Welcome.IntendedToggleStores | plugins/welcome.js:12-15 | the intended toggle stores the parameter under the command name for the bot's number and changes no other number |
| Welcome.GreetingShape | plugins/welcome.js:22-38 | an `add` or `remove` gets one greeting in the group mentioning that participant; other actions none |
| Welcome.GreetingText | plugins/welcome.js:24-34 | for the participant `user@server`, the greeting's text is the truthy `welcomeMessage` (add) or `goodbyeMessage` (remove) of the settings read under the group JID's part before '-', and otherwise `Welcome @user!` or `Goodbye @user!` |
| Welcome.SendWelcome | plugins/welcome.js:22-40 | the loop sends one greeting per added or removed participant, in order, whatever sends fail |
| Welcome.UpdateParticipants | main.js:178 | each participant of an update is paired with the update's action |
| Welcome.OneGreetingEach | plugins/welcome.js:22-40 | an `add`/`remove` update greets each participant once, in order, with that participant's own greeting (its text as `GreetingText` states), mentioning only them; other updates send nothing |
| Welcome.ToggleNeverChangesGreeting | plugins/welcome.js:12-34 | the toggle's key (`welcome`/`goodbye`) is not the one the greetings read (`welcomeMessage`/`goodbyeMessage`), so even the intended toggle changes no greeting |
| Welcome.SaveKeepsGreeting | plugins/welcome.js:26-34 | a save naming neither greeting key leaves every greeting as it was |
| AutoRespond.EqualityIsSubsumed | plugins/autorespond.js:20 | the `===` test adds nothing to `includes`: a key list hits iff one of its keys occurs |
| AutoRespond.SearchFindsFirst | plugins/autorespond.js:18-25 | the reply is that of the first rule, in table order, with a key that occurs |
| AutoRespond.SearchFindsNone | plugins/autorespond.js:18-25 | if no key of any rule occurs, there is no reply |
| AutoRespond.SearchAnswersAHit | plugins/autorespond.js:18-25 | any reply is that of a rule one of whose keys occurs |
| AutoRespond.FirstRuleWins | plugins/autorespond.js:7-25 | for a non-empty text, the first rule with a key in the lowercased text gives the reply |
| AutoRespond.SearchNoneIff | plugins/autorespond.js:18-25 | the search finds nothing exactly when no rule has a key that occurs |
| AutoRespond.NoReplyIff | plugins/autorespond.js:7-25 | no reply exactly when the text is empty or no key occurs in its lowercase form |
| AutoRespond.HelloGreets | plugins/autorespond.js:10-25 | any text holding "hello" gets the greeting, even "bye hello", because the greeting rule comes first |
| Menu.JsRem | plugins/menu.js:14 | `%` as JavaScript computes it: `a = b·q + r` for an integer `q`, with `0 <= r < b` for `a >= 0` and `-b < r <= 0` for `a < 0` (the sign of the dividend) |
| Menu.SplitRecomposes | plugins/menu.js:14 | for a non-negative uptime, hours, minutes and seconds recompose it, minutes and seconds below 60 |
| Menu.NoStartTimeShowsZero | plugins/menu.js:13-23 | with no start time (or 0) recorded for the number, the caption shows `0h 0m 0s` |
| Menu.UptimeSinceStart | plugins/menu.js:13-14 | with a start time, the uptime shown is the whole seconds since then, split into h, m and s |
| Menu.Handle | plugins/menu.js:34-38 | the image with its caption is sent first, and the fallback reply follows exactly when that send throws |

## Left out

- **I/O is not modelled:** the HTTP server, the file system (loading and writing the JSON
  files, `ensureDir`, `removeSync`), the MEGA client and the upload, `qrcode-terminal`
  rendering and the socket library. Their results are arguments; the session wipe is a
  flag.
- **Timing and interleaving are not modelled:** the delays, the 2000 ms restart and the
  timer callback are calls made in event order. Concurrent event handlers and the pairing
  loop's awaits are taken as atomic.
- `decodeJid`, the `creds.update` handler and the "connecting" log: they only forward to
  the socket library or log.
- Plugin loading and `init`, the process's `uncaughtException` and `unhandledRejection`
  handlers, and the plugins `song`, `ping` and the `sarver.js` server: they are outside
  the modelled core.
- **The connect notifications and `tryAutoJoin`** (main.js:390-407) are left out: they
  only send messages, and every failure there is swallowed.
- **The `getSettings` result, `isOwner` and the placeholder** (main.js:108-123) are never
  used by the pipeline, and `OWNER_NUMBERS` is left out with them. Reply failures
  (main.js:85) are swallowed and are not modelled.
- **The router's catch-all 500** (main.js:516-519). No modelled step of the admission
  throws.
- Text.ToLower: only ASCII letters are lowercased. JavaScript's Unicode case mapping is
  not modelled.
- Pipeline.ErrorText: assumes the thrown value is a plain `Error`. For an empty message,
  JavaScript prints the error's class name (`TypeError` for a TypeError), which the model
  always gives as `Error`; a thrown non-Error value would print differently too.
- Supervisor.Attempt.Timeout: models the default `CONNECT_TIMEOUT_MS` of 60000 ms as the
  timer firing. The environment override is not modelled.
- Menu.UptimeSeconds: plugins/menu.js:13 reads `Date.now()` twice; the model reads the
  clock once and uses that reading for both. When the millisecond ticks between the two
  reads with no start time recorded, the code shows `-1h -1m -1s`, which the model does not.
- SessionId.Relative: `path.relative` is modelled only for a creds path below the working
  directory; for one outside it the model keeps the path absolute where Node gives
  `../…`, so the saved `LOCAL~` text differs (it still resolves to the same file).
- Menu.Handle: the memory figure and the image URL are taken as given strings. `os` and
  the asset file are outside the model. Nothing in the bot sets
  `global.__socketStartTime`, so the start time is an input.
- Supervisor.StartAllSessions: the counts it logs are not modelled. A throw inside one
  record's attempt is modelled as that attempt's setup failure.

## Findings

| source | as written | input that shows it | evidently intended | confidence | as-written member | corrected member |
|---|---|---|---|---|---|---|
| plugins/welcome.js:14 | the toggle calls `storage.updateSettings`, which the store (file-storage.js:8-67) does not define. The call throws a TypeError before anything is saved or replied, and the dispatch answers `Command failed: storage.updateSettings is not a function` | the message `.welcome Hello all` sent to the bot | store the text with `saveSettings(number, { [cmd]: param })` and reply `welcome message updated.` | not executed | Welcome.ToggleThrows | Welcome.IntendedToggleStores |
