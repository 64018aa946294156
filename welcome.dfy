/**
 * The welcome plugin (plugins/welcome.js): its command handler, which means to store a
 * custom welcome or goodbye text, and `sendWelcome`, which greets the participants of a
 * group update. main.js:172-183 calls `sendWelcome` with every participant of one update
 * under that update's action.
 */
module Welcome {
  import opened Wrappers
  import Text
  import FileStorage
  import Pipeline

  const NOT_A_FUNCTION := "storage.updateSettings is not a function"
  const MSG_UPDATED := " message updated."

  // ---------------------------------------------------------------------
  // `handle`
  // ---------------------------------------------------------------------

  /** The text after the first space, trimmed. */
  function Param(text: string): string {
    Text.Trim(Text.After(text, " "))
  }

  predicate IsToggle(cmd: string) {
    cmd == "welcome" || cmd == "goodbye"
  }

  /** How `handle` ended: nothing done, or the exception it let escape. */
  datatype HandleResult = NoAction | Threw(error: string)

  /**
   * `handle` as written, given the raw text (`conversation || extendedTextMessage.text || ''`):
   * for `welcome` or `goodbye` with a parameter it calls `storage.updateSettings`, which the
   * store does not have, so the call throws a TypeError before anything is saved or replied.
   */
  function HandleAsWritten(raw: string): (r: HandleResult)
    ensures r.Threw? <==> IsToggle(Pipeline.RawCommandName(Text.Trim(raw))) && Param(Text.Trim(raw)) != ""
    ensures r.Threw? ==> r.error == NOT_A_FUNCTION
  {
    var text := Text.Trim(raw);
    var cmd := Pipeline.RawCommandName(text);
    if IsToggle(cmd) && Param(text) != "" then Threw(NOT_A_FUNCTION) else NoAction
  }

  /** The text `.name param` is read back as that name, lowercased, and that parameter. */
  lemma NameAndParam(name: string, param: string)
    requires ' ' !in name && '.' !in name
    requires param != "" && Text.Trim(param) == param
    ensures Text.Trim("." + name + " " + param) == "." + name + " " + param
    ensures Pipeline.RawCommandName("." + name + " " + param) == Text.ToLower(name)
    ensures Param("." + name + " " + param) == param
  {
    NameTextTrimmed(name, param);
    Pipeline.RawCommandNameOf(name, param);
    NameTextParam(name, param);
  }

  lemma NameTextTrimmed(name: string, param: string)
    requires param != "" && Text.Trim(param) == param
    ensures Text.Trim("." + name + " " + param) == "." + name + " " + param
  {
    var head := "." + name;
    var tail := " " + param;
    assert "." + name + " " + param == head + tail;
    assert head[0] == '.' && tail[|tail| - 1] == param[|param| - 1];
    TrimmedText(head, tail);
  }

  lemma NameTextParam(name: string, param: string)
    requires ' ' !in name && Text.Trim(param) == param
    ensures Param("." + name + " " + param) == param
  {
    DotNameHasNoSpace(name);
    ParamAfterName("." + name, param);
  }

  lemma DotNameHasNoSpace(name: string)
    requires ' ' !in name
    ensures ' ' !in "." + name
  {
    var head := "." + name;
    forall k | 1 <= k < |head| ensures head[k] != ' ' { assert head[k] == name[k - 1]; }
  }

  lemma TrimmedText(a: string, b: string)
    requires a != [] && b != [] && !Text.IsJsSpace(a[0]) && !Text.IsJsSpace(b[|b| - 1])
    ensures Text.Trim(a + b) == a + b
  {
    var t := a + b;
    assert t[0] == a[0] && t[|t| - 1] == b[|b| - 1];
    Text.TrimUnchanged(t);
  }

  lemma ParamAfterName(head: string, param: string)
    requires ' ' !in head && Text.Trim(param) == param
    ensures Param(head + " " + param) == param
  {
    Text.SplitAtFirst(head, " ", param);
  }

  /** The text `.cmd param` of a toggle is read back as that command and that parameter. */
  lemma ToggleText(cmd: string, param: string)
    requires IsToggle(cmd) && param != "" && Text.Trim(param) == param
    ensures Text.Trim("." + cmd + " " + param) == "." + cmd + " " + param
    ensures Pipeline.RawCommandName("." + cmd + " " + param) == cmd
    ensures Param("." + cmd + " " + param) == param
  {
    ToggleName(cmd);
    NameAndParam(cmd, param);
  }

  /** Both toggle commands are lower-case names with no space and no dot. */
  lemma ToggleName(cmd: string)
    requires IsToggle(cmd)
    ensures ' ' !in cmd && '.' !in cmd && Text.ToLower(cmd) == cmd
  {
    assert forall i :: 0 <= i < |cmd| ==> 'a' <= cmd[i] <= 'z';
    Text.LowerOfLowerCase(cmd);
  }

  /** Every toggle, as written, throws: no custom message is ever stored, and no reply is given. */
  lemma ToggleThrows(cmd: string, param: string)
    requires IsToggle(cmd) && param != "" && Text.Trim(param) == param
    ensures HandleAsWritten("." + cmd + " " + param) == Threw(NOT_A_FUNCTION)
  {
    ToggleText(cmd, param);
  }

  /**
   * Dispatched as a command, the exception becomes the reply `Command failed: storage.updateSettings
   * is not a function`, since welcome is the only plugin whose list holds those commands.
   */
  lemma ToggleCommandFails(plugins: seq<Pipeline.Plugin>, failures: seq<Option<string>>, i: nat, cmd: string)
    requires |failures| == |plugins| && i < |plugins| && Pipeline.Serves(plugins[i], cmd)
    requires forall j :: 0 <= j < i ==> !Pipeline.Serves(plugins[j], cmd)
    requires failures[i] == Some(NOT_A_FUNCTION)
    ensures Pipeline.DispatchOf(plugins, cmd, failures) ==
              Pipeline.Failed(i, Pipeline.MSG_COMMAND_FAILED + NOT_A_FUNCTION)
  {
    Pipeline.FirstMatchWins(plugins, cmd, failures, i);
  }

  /**
   * `handle` with the store's own `saveSettings` in place of the missing `updateSettings`: the
   * parameter is stored under the command's name for the bot's number, and the chat is told.
   */
  function HandleIntended(table: FileStorage.SettingsTable, number: string, raw: string)
    : (r: (FileStorage.SettingsTable, Option<string>))
    ensures var text := Text.Trim(raw); var cmd := Pipeline.RawCommandName(text);
            && (r.1.Some? <==> IsToggle(cmd) && Param(text) != "")
            && (r.1.Some? ==> r.1.value == cmd + MSG_UPDATED)
            && (r.1.None? ==> r.0 == table)
  {
    var text := Text.Trim(raw);
    var cmd := Pipeline.RawCommandName(text);
    var param := Param(text);
    if IsToggle(cmd) && param != "" then
      (FileStorage.Saved(table, number, map[cmd := FileStorage.Str(param)]), Some(cmd + MSG_UPDATED))
    else (table, None)
  }

  /**
   * The intended toggle stores the parameter under the command's name in the bot's number's
   * entry, and leaves every other number's settings as they were.
   */
  lemma IntendedToggleStores(table: FileStorage.SettingsTable, number: string, cmd: string, param: string, other: string)
    requires IsToggle(cmd) && param != "" && Text.Trim(param) == param
    ensures var after := HandleIntended(table, number, "." + cmd + " " + param);
            && after.1 == Some(cmd + MSG_UPDATED)
            && cmd in FileStorage.SettingsFor(after.0, number)
            && FileStorage.SettingsFor(after.0, number)[cmd] == FileStorage.Str(param)
            && (Text.Digits(other) != Text.Digits(number) ==>
                  FileStorage.SettingsFor(after.0, other) == FileStorage.SettingsFor(table, other))
  {
    ToggleText(cmd, param);
    var patch := map[cmd := FileStorage.Str(param)];
    FileStorage.SaveMerges(table, number, patch);
    if Text.Digits(other) != Text.Digits(number) {
      FileStorage.SaveLeavesOthers(table, number, patch, other);
    }
  }

  // ---------------------------------------------------------------------
  // `sendWelcome`
  // ---------------------------------------------------------------------

  datatype Participant = Participant(id: string, action: string)

  /** One `sendMessage` call: the text (a stored setting, or the default) and the mentions. */
  datatype Greeting = Greeting(jid: string, text: FileStorage.Value, mentions: seq<string>)

  /** `settings[key] || fallback` */
  function SettingOr(settings: FileStorage.Settings, key: string, fallback: string): FileStorage.Value {
    if key in settings && FileStorage.Truthy(settings[key]) then settings[key] else FileStorage.Str(fallback)
  }

  /** The settings are read under the part of the group's JID before the first '-'. */
  function GroupSettings(table: FileStorage.SettingsTable, jid: string): FileStorage.Settings {
    FileStorage.SettingsFor(table, Text.Before(jid, "-"))
  }

  /** The greeting for one participant, if its action is `add` or `remove`. */
  function GreetingFor(table: FileStorage.SettingsTable, jid: string, p: Participant): Option<Greeting> {
    var user := Text.Before(p.id, "@");
    if p.action == "add" then
      Some(Greeting(jid, SettingOr(GroupSettings(table, jid), "welcomeMessage", "Welcome @" + user + "!"), [p.id]))
    else if p.action == "remove" then
      Some(Greeting(jid, SettingOr(GroupSettings(table, jid), "goodbyeMessage", "Goodbye @" + user + "!"), [p.id]))
    else None
  }

  /** An `add` or `remove` gets one greeting in the group, mentioning that participant; any other action none. */
  lemma GreetingShape(table: FileStorage.SettingsTable, jid: string, p: Participant)
    ensures GreetingFor(table, jid, p).Some? <==> p.action == "add" || p.action == "remove"
    ensures GreetingFor(table, jid, p).Some? ==>
              GreetingFor(table, jid, p).value.jid == jid && GreetingFor(table, jid, p).value.mentions == [p.id]
  {
  }

  /** The greetings sent for `ps`, in order. */
  function Greetings(table: FileStorage.SettingsTable, jid: string, ps: seq<Participant>): seq<Greeting> {
    if ps == [] then []
    else
      var ps0 := ps[..|ps| - 1];
      Greetings(table, jid, ps0) +
        match GreetingFor(table, jid, ps[|ps| - 1]) case Some(g) => [g] case None => []
  }

  /**
   * The loop of `sendWelcome`: one send attempt per participant added or removed, in order.
   * A send that fails (`delivered[k]` false) is swallowed and the loop goes on, so which sends
   * fail changes nothing in what is attempted.
   */
  method SendWelcome(table: FileStorage.SettingsTable, jid: string, ps: seq<Participant>, delivered: seq<bool>)
    returns (sent: seq<Greeting>)
    requires |delivered| == |ps|
    ensures sent == Greetings(table, jid, ps)
  {
    sent := [];
    for k := 0 to |ps|
      invariant sent == Greetings(table, jid, ps[..k])
    {
      assert ps[..k + 1][..k] == ps[..k];
      var p := ps[k];
      var num := Text.Before(jid, "-");
      var settings := FileStorage.SettingsFor(table, num);
      if p.action == "add" {
        var welcome := SettingOr(settings, "welcomeMessage", "Welcome @" + Text.Before(p.id, "@") + "!");
        sent := sent + [Greeting(jid, welcome, [p.id])];
        if !delivered[k] {
          // the error is dropped
        }
      } else if p.action == "remove" {
        var bye := SettingOr(settings, "goodbyeMessage", "Goodbye @" + Text.Before(p.id, "@") + "!");
        sent := sent + [Greeting(jid, bye, [p.id])];
        if !delivered[k] {
          // the error is dropped
        }
      }
    }
    assert ps[..|ps|] == ps;
  }

  /** The participants of one update, all under its action. */
  function UpdateParticipants(ids: seq<string>, action: string): (ps: seq<Participant>)
    ensures |ps| == |ids|
    ensures forall k :: 0 <= k < |ids| ==> ps[k] == Participant(ids[k], action)
  {
    if ids == [] then [] else [Participant(ids[0], action)] + UpdateParticipants(ids[1..], action)
  }

  /**
   * An `add` or `remove` update greets each participant once, in order, with that participant's
   * greeting, mentioning exactly that participant; an update with any other action sends nothing.
   */
  lemma {:induction false} OneGreetingEach(table: FileStorage.SettingsTable, jid: string, ids: seq<string>, action: string)
    ensures var gs := Greetings(table, jid, UpdateParticipants(ids, action));
            && (action == "add" || action == "remove" ==>
                  && |gs| == |ids|
                  && forall k :: 0 <= k < |ids| ==>
                       && gs[k] == GreetingFor(table, jid, Participant(ids[k], action)).value
                       && gs[k].mentions == [ids[k]] && gs[k].jid == jid)
            && (action != "add" && action != "remove" ==> gs == [])
  {
    if ids != [] {
      var ids0 := ids[..|ids| - 1];
      OneGreetingEach(table, jid, ids0, action);
      var ps := UpdateParticipants(ids, action);
      LastParticipant(ids, action);
      GreetingsStep(table, jid, ps);
      var gs0 := Greetings(table, jid, UpdateParticipants(ids0, action));
      var gs := Greetings(table, jid, ps);
      if action == "add" || action == "remove" {
        MentionsAppend(table, gs0, gs[|gs| - 1], ids, jid, action);
      }
    }
  }

  lemma MentionsAppend(table: FileStorage.SettingsTable, gs0: seq<Greeting>, g: Greeting, ids: seq<string>,
                       jid: string, action: string)
    requires ids != [] && |gs0| == |ids| - 1 && (action == "add" || action == "remove")
    requires forall k :: 0 <= k < |gs0| ==>
               && gs0[k] == GreetingFor(table, jid, Participant(ids[..|ids| - 1][k], action)).value
               && gs0[k].mentions == [ids[..|ids| - 1][k]] && gs0[k].jid == jid
    requires g == GreetingFor(table, jid, Participant(ids[|ids| - 1], action)).value
    requires g.mentions == [ids[|ids| - 1]] && g.jid == jid
    ensures var gs := gs0 + [g];
            forall k :: 0 <= k < |ids| ==>
              && gs[k] == GreetingFor(table, jid, Participant(ids[k], action)).value
              && gs[k].mentions == [ids[k]] && gs[k].jid == jid
  {
    var gs := gs0 + [g];
    forall k | 0 <= k < |ids|
      ensures && gs[k] == GreetingFor(table, jid, Participant(ids[k], action)).value
              && gs[k].mentions == [ids[k]] && gs[k].jid == jid
    {
      if k < |gs0| { assert gs[k] == gs0[k] && ids[..|ids| - 1][k] == ids[k]; }
    }
  }

  /**
   * The text of a greeting for the participant `user@server`: the group's `welcomeMessage` (for
   * `add`) or `goodbyeMessage` (for `remove`) when it is set and truthy, read from the settings
   * of the part of the group's JID before the first '-'; otherwise `Welcome @user!` or
   * `Goodbye @user!`.
   */
  lemma GreetingText(table: FileStorage.SettingsTable, jid: string, user: string, server: string, action: string)
    requires '@' !in user
    requires action == "add" || action == "remove"
    ensures var key := if action == "add" then "welcomeMessage" else "goodbyeMessage";
            var fallback := (if action == "add" then "Welcome @" else "Goodbye @") + user + "!";
            var settings := FileStorage.SettingsFor(table, Text.Before(jid, "-"));
            var g := GreetingFor(table, jid, Participant(user + "@" + server, action));
            && g.Some?
            && (key in settings && FileStorage.Truthy(settings[key]) ==> g.value.text == settings[key])
            && (!(key in settings && FileStorage.Truthy(settings[key])) ==> g.value.text == FileStorage.Str(fallback))
  {
    Text.SplitAtFirst(user, "@", server);
  }

  /** The participants of an update but the last are those of the update without it. */
  lemma LastParticipant(ids: seq<string>, action: string)
    requires ids != []
    ensures var ps := UpdateParticipants(ids, action);
            ps[..|ps| - 1] == UpdateParticipants(ids[..|ids| - 1], action) &&
            ps[|ps| - 1] == Participant(ids[|ids| - 1], action)
  {
    var ps := UpdateParticipants(ids, action);
    var ps0 := UpdateParticipants(ids[..|ids| - 1], action);
    assert ps[..|ps| - 1] == ps0;
  }

  /** One more participant adds its greeting, if it has one, after those of the others. */
  lemma GreetingsStep(table: FileStorage.SettingsTable, jid: string, ps: seq<Participant>)
    requires ps != []
    ensures var last := ps[|ps| - 1];
            var g := GreetingFor(table, jid, last);
            var gs0 := Greetings(table, jid, ps[..|ps| - 1]);
            var gs := Greetings(table, jid, ps);
            && (last.action == "add" || last.action == "remove" ==>
                  gs == gs0 + [g.value] && g.value.jid == jid && g.value.mentions == [last.id])
            && (last.action != "add" && last.action != "remove" ==> gs == gs0)
  {
    GreetingShape(table, jid, ps[|ps| - 1]);
  }

  /**
   * The toggle writes the key `welcome` or `goodbye`, but greetings read `welcomeMessage` and
   * `goodbyeMessage`: even the intended update leaves every greeting as it was.
   */
  lemma ToggleNeverChangesGreeting(table: FileStorage.SettingsTable, number: string, raw: string,
                                   jid: string, p: Participant)
    ensures GreetingFor(HandleIntended(table, number, raw).0, jid, p) == GreetingFor(table, jid, p)
  {
    var text := Text.Trim(raw);
    var cmd := Pipeline.RawCommandName(text);
    if IsToggle(cmd) && Param(text) != "" {
      ToggleKeepsGreeting(table, number, raw, jid, p);
    }
  }

  lemma ToggleKeepsGreeting(table: FileStorage.SettingsTable, number: string, raw: string, jid: string, p: Participant)
    requires IsToggle(Pipeline.RawCommandName(Text.Trim(raw))) && Param(Text.Trim(raw)) != ""
    ensures GreetingFor(HandleIntended(table, number, raw).0, jid, p) == GreetingFor(table, jid, p)
  {
    var text := Text.Trim(raw);
    var cmd := Pipeline.RawCommandName(text);
    ToggleSaves(table, number, raw);
    ToggleSaveKeepsGreeting(table, number, cmd, Param(text), jid, p);
  }

  /** Saving a toggle's parameter under its command's name leaves every greeting as it was. */
  lemma ToggleSaveKeepsGreeting(table: FileStorage.SettingsTable, number: string, cmd: string, param: string,
                                jid: string, p: Participant)
    requires IsToggle(cmd)
    ensures GreetingFor(FileStorage.Saved(table, number, map[cmd := FileStorage.Str(param)]), jid, p) ==
            GreetingFor(table, jid, p)
  {
    ToggleKeyIsNoGreetingKey(cmd);
    SaveKeepsGreeting(table, number, map[cmd := FileStorage.Str(param)], jid, p);
  }

  /** A toggle with a parameter saves exactly that one field for the bot's number. */
  lemma ToggleSaves(table: FileStorage.SettingsTable, number: string, raw: string)
    requires IsToggle(Pipeline.RawCommandName(Text.Trim(raw))) && Param(Text.Trim(raw)) != ""
    ensures var text := Text.Trim(raw);
            HandleIntended(table, number, raw).0 ==
              FileStorage.Saved(table, number, map[Pipeline.RawCommandName(text) := FileStorage.Str(Param(text))])
  {
  }

  lemma ToggleKeyIsNoGreetingKey(cmd: string)
    requires IsToggle(cmd)
    ensures cmd != "welcomeMessage" && cmd != "goodbyeMessage"
  {
    assert |cmd| == 7;
  }

  /** A save that names neither greeting key leaves every greeting as it was. */
  lemma SaveKeepsGreeting(table: FileStorage.SettingsTable, number: string, patch: FileStorage.Settings,
                          jid: string, p: Participant)
    requires "welcomeMessage" !in patch && "goodbyeMessage" !in patch
    ensures GreetingFor(FileStorage.Saved(table, number, patch), jid, p) == GreetingFor(table, jid, p)
  {
    var num := Text.Before(jid, "-");
    var user := Text.Before(p.id, "@");
    PatchKeepsSetting(table, number, patch, num, "welcomeMessage", "Welcome @" + user + "!");
    PatchKeepsSetting(table, number, patch, num, "goodbyeMessage", "Goodbye @" + user + "!");
  }

  /** A save that does not name `key` changes no number's `settings[key] || fallback`, defaults aside. */
  lemma PatchKeepsSetting(table: FileStorage.SettingsTable, number: string, patch: FileStorage.Settings,
                          num: string, key: string, fallback: string)
    requires key !in patch && key !in FileStorage.Defaults()
    ensures SettingOr(FileStorage.SettingsFor(FileStorage.Saved(table, number, patch), num), key, fallback) ==
            SettingOr(FileStorage.SettingsFor(table, num), key, fallback)
  {
    if Text.Digits(num) != Text.Digits(number) {
      FileStorage.SaveLeavesOthers(table, number, patch, num);
    }
  }
}
