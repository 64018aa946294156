/**
 * The group administration plugin (plugins/group.js): commands kick, promote, demote,
 * invite and leave. The socket calls it makes are effects listed in order; the group
 * metadata lookup and each group action are inputs that may fail.
 */
module Group {
  import opened Wrappers
  import Text
  import Pipeline

  const COMMANDS: seq<string> := ["kick", "promote", "demote", "invite", "leave"]

  const USER_SUFFIX := "@s.whatsapp.net"
  const GROUP_SUFFIX := "@g.us"

  const MSG_GROUPS_ONLY := "This command works only in groups."
  const MSG_NEED_ADMIN := "You need to be group admin to use this command."
  const MSG_KICK_TARGET := "Provide phone number to kick."
  const MSG_PROMOTE_TARGET := "Provide phone number to promote."
  const MSG_DEMOTE_TARGET := "Provide phone number to demote."
  const MSG_REMOVED := "Member removed."
  const MSG_PROMOTED := "Member promoted."
  const MSG_DEMOTED := "Member demoted."
  const MSG_INVITE_LINK := "Provide invite link."
  const MSG_INVITE_ADVICE := "Please open the invite link in your WhatsApp to invite the bot or members."
  const MSG_ACTION_FAILED := "Group action failed: "

  /** The TypeError message of reading `args[0]` when the handler was given no `args`. */
  const MSG_NO_ARGS := "Cannot read properties of undefined (reading '0')"

  /** One entry of `metadata.participants`. */
  datatype Member = Member(id: string, admin: Option<string>)

  /** What the handler does, in order: replies in the chat and group actions. */
  datatype Effect =
    | Reply(text: string)
    | Remove(group: string, target: string)
    | MakeAdmin(group: string, target: string)
    | DemoteAdmin(group: string, target: string)
    | Leave(group: string)

  /**
   * One call of the handler: the raw text (`conversation || extendedTextMessage.text || ''`),
   * the chat, the sender in a group, the arguments (None when the caller passes none, as
   * the message pass does), the group's members (None when the metadata lookup throws), and
   * the error the group action throws, if any.
   */
  datatype Call = Call(text: string, from: string, participant: Option<string>,
                       args: Option<seq<string>>, metadata: Option<seq<Member>>,
                       actionError: Option<string>)

  predicate IsAdmin(members: seq<Member>, participant: Option<string>) {
    exists k :: 0 <= k < |members| && Some(members[k].id) == participant &&
      (members[k].admin == Some("admin") || members[k].admin == Some("superadmin"))
  }

  /** `args[0]?.replace(/[^0-9]/g, '') + '@s.whatsapp.net'` for arguments that exist. */
  function Target(args: seq<string>): (t: string)
    ensures t != ""
    ensures args == [] ==> t == "undefined" + USER_SUFFIX
    ensures args != [] ==> t == Text.Digits(args[0]) + USER_SUFFIX
  {
    (if args == [] then "undefined" else Text.Digits(args[0])) + USER_SUFFIX
  }

  /** A group action, then its reply, or the failure reply when the action throws. */
  function Act(action: Effect, done: string, err: Option<string>): seq<Effect> {
    [action] + [Reply(if err.Some? then MSG_ACTION_FAILED + Pipeline.ErrorText(err.value) else done)]
  }

  /** The `switch` inside its `try`, once the chat and the sender have been accepted. */
  function Switch(cmd: string, c: Call): seq<Effect> {
    if cmd == "kick" || cmd == "promote" || cmd == "demote" then
      if c.args.None? then [Reply(MSG_ACTION_FAILED + MSG_NO_ARGS)]
      else
        var target := Target(c.args.value);
        if target == "" then
          [Reply(if cmd == "kick" then MSG_KICK_TARGET else if cmd == "promote" then MSG_PROMOTE_TARGET else MSG_DEMOTE_TARGET)]
        else if cmd == "kick" then Act(Remove(c.from, target), MSG_REMOVED, c.actionError)
        else if cmd == "promote" then Act(MakeAdmin(c.from, target), MSG_PROMOTED, c.actionError)
        else Act(DemoteAdmin(c.from, target), MSG_DEMOTED, c.actionError)
    else if cmd == "invite" then
      if c.args.None? then [Reply(MSG_ACTION_FAILED + MSG_NO_ARGS)]
      else if c.args.value == [] || c.args.value[0] == "" then [Reply(MSG_INVITE_LINK)]
      else [Reply(MSG_INVITE_ADVICE)]
    else if cmd == "leave" then
      [Leave(c.from)] + (if c.actionError.Some? then [Reply(MSG_ACTION_FAILED + Pipeline.ErrorText(c.actionError.value))] else [])
    else []
  }

  /** `handle`: the chat test, the admin test (skipped when the metadata lookup fails), the switch. */
  function Handle(c: Call): seq<Effect> {
    if !Text.EndsWith(c.from, GROUP_SUFFIX) then [Reply(MSG_GROUPS_ONLY)]
    else if c.metadata.Some? && !IsAdmin(c.metadata.value, c.participant) then [Reply(MSG_NEED_ADMIN)]
    else Switch(Pipeline.RawCommandName(c.text), c)
  }

  function Replies(es: seq<Effect>): (r: seq<string>)
    ensures |r| <= |es|
  {
    if es == [] then []
    else (if es[0].Reply? then [es[0].text] else []) + Replies(es[1..])
  }

  function Actions(es: seq<Effect>): (r: seq<Effect>)
    ensures |r| <= |es|
    ensures forall k :: 0 <= k < |r| ==> !r[k].Reply?
  {
    if es == [] then []
    else (if es[0].Reply? then [] else [es[0]]) + Actions(es[1..])
  }

  /** Outside a group the only effect is the "groups only" reply, whatever the command. */
  lemma NotAGroup(c: Call)
    requires !Text.EndsWith(c.from, GROUP_SUFFIX)
    ensures Handle(c) == [Reply(MSG_GROUPS_ONLY)]
  {
  }

  /** A group member's command is refused exactly when the metadata shows the sender is no admin. */
  lemma AdminGate(c: Call)
    requires Text.EndsWith(c.from, GROUP_SUFFIX)
    ensures Handle(c) == [Reply(MSG_NEED_ADMIN)] <==> c.metadata.Some? && !IsAdmin(c.metadata.value, c.participant)
  {
    var es := Switch(Pipeline.RawCommandName(c.text), c);
    assert es != [Reply(MSG_NEED_ADMIN)] by {
      NoSwitchEffectIsRefusal(Pipeline.RawCommandName(c.text), c);
    }
  }

  /** No reply of the switch is the refusal: each starts with a letter other than its 'Y'. */
  lemma NoSwitchEffectIsRefusal(cmd: string, c: Call)
    ensures Reply(MSG_NEED_ADMIN) !in Switch(cmd, c)
  {
    assert MSG_NEED_ADMIN[0] == "You"[0];
    forall x: string ensures (MSG_ACTION_FAILED + x)[0] == 'G' && MSG_ACTION_FAILED + x != MSG_NEED_ADMIN {
      assert (MSG_ACTION_FAILED + x)[0] == MSG_ACTION_FAILED[0];
    }
  }

  /** When the metadata lookup throws, the admin test is skipped: any sender may run any command. */
  lemma MetadataFailureSkipsGate(c: Call)
    requires Text.EndsWith(c.from, GROUP_SUFFIX) && c.metadata.None?
    ensures Handle(c) == Switch(Pipeline.RawCommandName(c.text), c)
  {
  }

  /**
   * The target of kick/promote/demote is never falsy, so the "Provide phone number" replies
   * cannot be given: with arguments, the action is always attempted on that target.
   */
  lemma TargetAlwaysUsed(cmd: string, c: Call)
    requires cmd == "kick" || cmd == "promote" || cmd == "demote"
    requires c.args.Some?
    ensures var es := Switch(cmd, c); |es| == 2 && Actions(es) == [es[0]]
    ensures Reply(MSG_KICK_TARGET) !in Switch(cmd, c)
    ensures Reply(MSG_PROMOTE_TARGET) !in Switch(cmd, c)
    ensures Reply(MSG_DEMOTE_TARGET) !in Switch(cmd, c)
    ensures Switch(cmd, c)[0] ==
              (if cmd == "kick" then Remove(c.from, Target(c.args.value))
               else if cmd == "promote" then MakeAdmin(c.from, Target(c.args.value))
               else DemoteAdmin(c.from, Target(c.args.value)))
  {
    var es := Switch(cmd, c);
    assert es[1].Reply?;
    assert Actions(es[1..]) == [] by { assert es[1..][1..] == []; }
    var t := es[1].text;
    assert t == MSG_REMOVED || t == MSG_PROMOTED || t == MSG_DEMOTED || t[0] == 'G';
  }

  /** Kicking without arguments removes the literal `undefined@s.whatsapp.net`. */
  lemma KickWithoutArgument(c: Call)
    requires c.args == Some([]) && c.actionError.None?
    ensures Switch("kick", c) == [Remove(c.from, "undefined@s.whatsapp.net"), Reply(MSG_REMOVED)]
  {
    assert Target([]) == "undefined" + USER_SUFFIX == "undefined@s.whatsapp.net";
  }

  /** A command outside the list, admitted past the tests, has no effect at all. */
  lemma UnlistedDoesNothing(c: Call)
    requires Text.EndsWith(c.from, GROUP_SUFFIX)
    requires c.metadata.None? || IsAdmin(c.metadata.value, c.participant)
    requires Pipeline.RawCommandName(c.text) !in COMMANDS
    ensures Handle(c) == []
  {
    Unlisted(Pipeline.RawCommandName(c.text));
  }

  lemma Unlisted(cmd: string)
    requires cmd !in COMMANDS
    ensures cmd != "kick" && cmd != "promote" && cmd != "demote" && cmd != "invite" && cmd != "leave"
  {
    assert COMMANDS[0] == "kick" && COMMANDS[1] == "promote" && COMMANDS[2] == "demote";
    assert COMMANDS[3] == "invite" && COMMANDS[4] == "leave";
  }

  /** A throwing action is followed by exactly one reply, the failure reply, and nothing else. */
  lemma FailureGivesOneReply(cmd: string, c: Call)
    requires cmd in COMMANDS && cmd != "invite" && c.args.Some? && c.actionError.Some?
    ensures Replies(Switch(cmd, c)) == [MSG_ACTION_FAILED + Pipeline.ErrorText(c.actionError.value)]
    ensures |Actions(Switch(cmd, c))| == 1
  {
    var es := Switch(cmd, c);
    assert es[1..][1..] == [];
  }

  /** `invite` never acts on the group. */
  lemma InviteOnlyReplies(c: Call)
    ensures Actions(Switch("invite", c)) == []
    ensures |Replies(Switch("invite", c))| == 1
  {
  }

  /** Given no arguments, as in the pass over every message, a listed command other than `leave` fails. */
  lemma NoArgsFails(cmd: string, c: Call)
    requires cmd in COMMANDS && cmd != "leave" && c.args.None?
    ensures Switch(cmd, c) == [Reply(MSG_ACTION_FAILED + MSG_NO_ARGS)]
  {
  }
}
