/**
 * The inbound message pipeline of main.js (main.js:57-81, 102-169): which messages are
 * looked at, the body and the command read from them, the pass that shows every
 * message to every plugin, and the first-match dispatch of a command.
 *
 * Plugins appear only through what the dispatch needs of them (name, command list,
 * whether they have a handler); whether a handler throws, and with which message,
 * is an input.
 */
module Pipeline {
  import opened Wrappers
  import Text

  const STATUS_BROADCAST := "status@broadcast"
  const DEFAULT_PREFIX := "."
  const MSG_UNKNOWN := "Unknown command. Send .menu to see commands."
  const MSG_COMMAND_FAILED := "Command failed: "

  /** The text-bearing parts of `msg.message`. */
  datatype Content = Content(conversation: Option<string>, extendedText: Option<string>, imageCaption: Option<string>)

  /** An upserted message: its chat, sender in a group, id, and content (None when `msg.message` is missing). */
  datatype Message = Message(remoteJid: string, participant: Option<string>, id: string, content: Option<Content>)

  /** A loaded plugin, as the dispatch sees it. */
  datatype Plugin = Plugin(name: string, commands: seq<string>, hasHandle: bool)

  /** JavaScript's `a || b` for an optional string. */
  function OrElse(a: Option<string>, b: string): string {
    if a.Some? && a.value != "" then a.value else b
  }

  /** `conversation || extendedTextMessage.text || imageMessage.caption || ''` */
  function ContentText(c: Content): string {
    OrElse(c.conversation, OrElse(c.extendedText, OrElse(c.imageCaption, "")))
  }

  /** `process.env.PREFIX || '.'` */
  function Prefix(env: Option<string>): (p: string)
    ensures p != ""
    ensures env.Some? && env.value != "" ==> p == env.value
  {
    OrElse(env, DEFAULT_PREFIX)
  }

  /** The first test of the loop: no content, or the status broadcast chat. */
  predicate Skipped(m: Message) {
    m.content.None? || m.remoteJid == STATUS_BROADCAST
  }

  /** The status-broadcast branch after it (main.js:125-135) is never reached. */
  lemma StatusBranchUnreachable(m: Message)
    requires !Skipped(m)
    ensures m.remoteJid != STATUS_BROADCAST && m.content.Some?
  {
  }

  /** The trimmed body of a message that was not skipped. */
  function Body(m: Message): string
    requires m.content.Some?
  {
    Text.Trim(ContentText(m.content.value))
  }

  /** A command: its lowercased name and its arguments, case kept. */
  datatype Command = Command(name: string, args: seq<string>)

  /**
   * For a body that starts with the prefix: the text after the prefix, trimmed and split on
   * runs of spaces; the first token, lowercased, names the command and the rest are its arguments.
   */
  function ParseCommand(body: string, prefix: string): (c: Option<Command>)
    ensures c.Some? <==> Text.StartsWith(body, prefix)
  {
    if !Text.StartsWith(body, prefix) then None
    else
      var parts := Text.Words(Text.Trim(body[|prefix|..]));
      Some(Command(Text.ToLower(parts[0]), parts[1..]))
  }

  /** Command names and arguments never hold a space; the name is in lower case. */
  lemma CommandTokens(body: string, prefix: string)
    requires Text.StartsWith(body, prefix)
    ensures var c := ParseCommand(body, prefix).value;
            && ' ' !in c.name
            && (forall i :: 0 <= i < |c.name| ==> !('A' <= c.name[i] <= 'Z'))
            && (forall k :: 0 <= k < |c.args| ==> ' ' !in c.args[k])
  {
    var parts := Text.Words(Text.Trim(body[|prefix|..]));
    Text.WordsHaveNoSpace(Text.Trim(body[|prefix|..]));
    assert ' ' !in parts[0];
    var name := Text.ToLower(parts[0]);
    forall i | 0 <= i < |name| ensures name[i] != ' ' {
      assert parts[0][i] in parts[0];
    }
    forall k | 0 <= k < |parts| - 1 ensures ' ' !in parts[1..][k] {
      assert parts[1..][k] == parts[k + 1];
    }
  }

  /** A word with no white space in it. */
  predicate Token(w: string) {
    w != [] && forall i :: 0 <= i < |w| ==> !Text.IsJsSpace(w[i])
  }

  /**
   * Round trip: the prefix, then a name and its arguments separated by single spaces, parses
   * back to the lowercased name with the arguments unchanged.
   */
  lemma ParseCommandRoundTrip(prefix: string, name: string, args: seq<string>)
    requires Token(name) && forall k :: 0 <= k < |args| ==> Token(args[k])
    ensures ParseCommand(prefix + Text.Join([name] + args, " "), prefix) == Some(Command(Text.ToLower(name), args))
  {
    var ws := [name] + args;
    var rest := Text.Join(ws, " ");
    var body := prefix + rest;
    assert body[..|prefix|] == prefix && body[|prefix|..] == rest;
    forall k | 0 <= k < |ws| ensures ws[k] != [] && ' ' !in ws[k] {
      assert Token(ws[k]);
      assert Text.IsJsSpace(' ');
      assert forall i :: 0 <= i < |ws[k]| ==> ws[k][i] != ' ';
    }
    Text.JoinHead(ws, " ");
    JoinLast(ws, " ");
    assert rest[0] == name[0];
    Text.TrimUnchanged(rest);
    Text.WordsJoin(ws);
    assert ws[1..] == args;
  }

  /** A join of non-empty parts ends with the last part's last character. */
  lemma {:induction false} JoinLast(parts: seq<string>, sep: string)
    requires |parts| >= 1 && parts[|parts| - 1] != []
    ensures var j := Text.Join(parts, sep); |j| > 0 && j[|j| - 1] == parts[|parts| - 1][|parts[|parts| - 1]| - 1]
  {
    if |parts| > 1 {
      JoinLast(parts[1..], sep);
      assert parts[1..][|parts| - 2] == parts[|parts| - 1];
    }
  }

  /**
   * How the plugins read the command again from the raw text: its first token split on a
   * single space, with the first '.' removed, lowercased. Neither the prefix nor the trimmed
   * body plays a part.
   */
  function RawCommandName(text: string): string {
    Text.ToLower(Text.RemoveFirst(Text.Before(text, " "), '.'))
  }

  /** For a text `.name rest` that command is the lowercased name, whatever follows. */
  lemma RawCommandNameOf(name: string, rest: string)
    requires ' ' !in name && '.' !in name
    ensures RawCommandName("." + name + " " + rest) == Text.ToLower(name)
  {
    Text.SplitAtFirst("." + name, " ", rest);
    Text.IndexOfPrefix("." + name, ".");
    assert ("." + name)[1..] == name;
  }

  // ---------------------------------------------------------------------
  // Showing the message to every plugin (main.js:71-81)
  // ---------------------------------------------------------------------

  /** The plugins, by index, that have a handler. */
  function WithHandler(plugins: seq<Plugin>, n: nat): (r: seq<nat>)
    requires n <= |plugins|
    ensures forall k :: 0 <= k < |r| ==> r[k] < n
    ensures forall k, l :: 0 <= k < l < |r| ==> r[k] < r[l]
    ensures forall i :: 0 <= i < n ==> (i in r <==> plugins[i].hasHandle)
  {
    if n == 0 then []
    else WithHandler(plugins, n - 1) + (if plugins[n - 1].hasHandle then [n - 1] else [])
  }

  /**
   * `runPluginsForMessage`: every plugin with a handler is called, in order, whatever its
   * command list; a handler that throws is logged and the next one still runs.
   */
  method RunPluginsForMessage(plugins: seq<Plugin>, throws: seq<bool>) returns (called: seq<nat>)
    requires |throws| == |plugins|
    ensures called == WithHandler(plugins, |plugins|)
  {
    called := [];
    for i := 0 to |plugins|
      invariant called == WithHandler(plugins, i)
    {
      if plugins[i].hasHandle {
        called := called + [i];
        if throws[i] {
          // logged; the loop goes on
        }
      }
    }
  }

  // ---------------------------------------------------------------------
  // Command dispatch (main.js:141-163)
  // ---------------------------------------------------------------------

  predicate Serves(p: Plugin, command: string) {
    command in p.commands && p.hasHandle
  }

  /** The first plugin, from index `from` on, that lists the command and has a handler. */
  function FirstServing(plugins: seq<Plugin>, command: string, from: nat): (r: Option<nat>)
    requires from <= |plugins|
    ensures r.Some? ==> from <= r.value < |plugins| && Serves(plugins[r.value], command)
    ensures r.Some? ==> forall j :: from <= j < r.value ==> !Serves(plugins[j], command)
    ensures r.None? ==> forall j :: from <= j < |plugins| ==> !Serves(plugins[j], command)
    decreases |plugins| - from
  {
    if from == |plugins| then None
    else if Serves(plugins[from], command) then Some(from)
    else FirstServing(plugins, command, from + 1)
  }

  /**
   * `e.message || e` for an `Error` thrown with `message`: an empty message falls back to the
   * error itself, which converts to its name.
   */
  function ErrorText(message: string): (t: string)
    ensures t != ""
    ensures message != "" ==> t == message
  {
    if message != "" then message else "Error"
  }

  /** How the dispatch of one command ended, and the one reply the chat gets from main.js. */
  datatype Dispatch = Handled(plugin: nat) | Failed(plugin: nat, reply: string) | Unknown(reply: string)

  /**
   * The dispatch as a reference definition: the first serving plugin handles the command;
   * if its handler throws with `failures[i]`, main.js replies `Command failed: …`; with no
   * serving plugin, it replies that the command is unknown.
   */
  function DispatchOf(plugins: seq<Plugin>, command: string, failures: seq<Option<string>>): Dispatch
    requires |failures| == |plugins|
  {
    match FirstServing(plugins, command, 0)
    case None => Unknown(MSG_UNKNOWN)
    case Some(i) => if failures[i].Some? then Failed(i, MSG_COMMAND_FAILED + ErrorText(failures[i].value)) else Handled(i)
  }

  /** The dispatch loop, which stops at the first plugin serving the command. */
  method DispatchCommand(plugins: seq<Plugin>, command: string, failures: seq<Option<string>>) returns (d: Dispatch)
    requires |failures| == |plugins|
    ensures d == DispatchOf(plugins, command, failures)
  {
    var handled := false;
    var i := 0;
    while i < |plugins|
      invariant 0 <= i <= |plugins|
      invariant FirstServing(plugins, command, 0) == FirstServing(plugins, command, i)
    {
      if Serves(plugins[i], command) {
        if failures[i].Some? {
          return Failed(i, MSG_COMMAND_FAILED + ErrorText(failures[i].value));
        }
        return Handled(i);
      }
      i := i + 1;
    }
    return Unknown(MSG_UNKNOWN);
  }

  /**
   * First match wins: a command is answered by exactly one plugin, the first in load order
   * that lists it, and a failure there is not retried on a later plugin.
   */
  lemma FirstMatchWins(plugins: seq<Plugin>, command: string, failures: seq<Option<string>>, i: nat)
    requires |failures| == |plugins| && i < |plugins| && Serves(plugins[i], command)
    requires forall j :: 0 <= j < i ==> !Serves(plugins[j], command)
    ensures DispatchOf(plugins, command, failures) ==
              if failures[i].Some? then Failed(i, MSG_COMMAND_FAILED + ErrorText(failures[i].value)) else Handled(i)
  {
    FirstServingIs(plugins, command, 0, i);
  }

  lemma {:induction false} FirstServingIs(plugins: seq<Plugin>, command: string, from: nat, i: nat)
    requires from <= i < |plugins| && Serves(plugins[i], command)
    requires forall j :: from <= j < i ==> !Serves(plugins[j], command)
    ensures FirstServing(plugins, command, from) == Some(i)
    decreases i - from
  {
    if from < i {
      FirstServingIs(plugins, command, from + 1, i);
    }
  }

  /** A command no plugin serves gets the one "unknown command" reply. */
  lemma UnservedIsUnknown(plugins: seq<Plugin>, command: string, failures: seq<Option<string>>)
    requires |failures| == |plugins|
    ensures DispatchOf(plugins, command, failures) == Unknown(MSG_UNKNOWN) <==>
            forall j :: 0 <= j < |plugins| ==> !Serves(plugins[j], command)
  {
  }

  /**
   * `runPluginsForCommand`, which no handler calls: unlike the loop of the message handler,
   * a throwing handler is logged and the search goes on with the next plugin. The result says
   * whether some serving plugin's handler returned normally, and `called` lists the handlers
   * run, in order.
   */
  method RunPluginsForCommand(plugins: seq<Plugin>, command: string, failures: seq<Option<string>>)
    returns (handled: bool, called: seq<nat>)
    requires |failures| == |plugins|
    ensures forall k, l :: 0 <= k < l < |called| ==> called[k] < called[l]
    ensures forall k :: 0 <= k < |called| ==> called[k] < |plugins| && Serves(plugins[called[k]], command)
    ensures forall k :: 0 <= k < |called| - 1 ==> failures[called[k]].Some?
    ensures handled <==> called != [] && failures[called[|called| - 1]].None?
    ensures handled ==> forall j :: 0 <= j < called[|called| - 1] && Serves(plugins[j], command) ==> j in called
    ensures !handled ==> forall j :: 0 <= j < |plugins| && Serves(plugins[j], command) ==> j in called
  {
    called := [];
    for i := 0 to |plugins|
      invariant forall k, l :: 0 <= k < l < |called| ==> called[k] < called[l]
      invariant forall k :: 0 <= k < |called| ==> called[k] < i && Serves(plugins[called[k]], command)
      invariant forall k :: 0 <= k < |called| ==> failures[called[k]].Some?
      invariant forall j :: 0 <= j < i && Serves(plugins[j], command) ==> j in called
    {
      if Serves(plugins[i], command) {
        called := called + [i];
        if failures[i].None? {
          return true, called;
        }
      }
    }
    return false, called;
  }

  // ---------------------------------------------------------------------
  // One batch of upserted messages (main.js:103-168)
  // ---------------------------------------------------------------------

  /** What the handler does with one message. */
  datatype Outcome =
    | Ignored
    | Seen(body: string, called: seq<nat>, command: Option<Command>, dispatch: Option<Dispatch>)

  /**
   * The reference for one message: skipped ones are ignored; otherwise every plugin with a
   * handler sees the body, and a body that starts with the prefix is dispatched as a command.
   */
  function OutcomeOf(m: Message, plugins: seq<Plugin>, prefix: string, failures: seq<Option<string>>): Outcome
    requires |failures| == |plugins|
  {
    if Skipped(m) then Ignored
    else
      var body := Body(m);
      var c := ParseCommand(body, prefix);
      Seen(body, WithHandler(plugins, |plugins|), c,
           if c.Some? then Some(DispatchOf(plugins, c.value.name, failures)) else None)
  }

  /**
   * The `messages.upsert` handler: each message in turn, with the prefix from the environment.
   * `messageThrows[i]` and `failures[i]` say how the plugins' handlers fare on message `i` in
   * the message pass and in the command dispatch.
   */
  method OnMessages(messages: seq<Message>, plugins: seq<Plugin>, prefixEnv: Option<string>,
                    messageThrows: seq<seq<bool>>, failures: seq<seq<Option<string>>>)
    returns (outcomes: seq<Outcome>)
    requires |messageThrows| == |messages| && |failures| == |messages|
    requires forall i :: 0 <= i < |messages| ==> |messageThrows[i]| == |plugins| && |failures[i]| == |plugins|
    ensures |outcomes| == |messages|
    ensures forall i :: 0 <= i < |messages| ==>
              outcomes[i] == OutcomeOf(messages[i], plugins, Prefix(prefixEnv), failures[i])
  {
    var prefix := Prefix(prefixEnv);
    outcomes := [];
    for i := 0 to |messages|
      invariant |outcomes| == i
      invariant forall k :: 0 <= k < i ==> outcomes[k] == OutcomeOf(messages[k], plugins, prefix, failures[k])
    {
      var o := HandleMessage(messages[i], plugins, prefix, messageThrows[i], failures[i]);
      ghost var before := outcomes;
      outcomes := outcomes + [o];
      assert outcomes[i] == o && outcomes[..i] == before;
    }
  }

  /** The body of the batch loop, for one message. */
  method HandleMessage(m: Message, plugins: seq<Plugin>, prefix: string,
                       throws: seq<bool>, failures: seq<Option<string>>) returns (o: Outcome)
    requires |throws| == |plugins| && |failures| == |plugins|
    ensures o == OutcomeOf(m, plugins, prefix, failures)
  {
    if Skipped(m) {
      return Ignored;
    }
    var body := Body(m);
    var called := RunPluginsForMessage(plugins, throws);
    var c := ParseCommand(body, prefix);
    var d: Option<Dispatch> := None;
    if c.Some? {
      var r := DispatchCommand(plugins, c.value.name, failures);
      d := Some(r);
    }
    return Seen(body, called, c, d);
  }
}
