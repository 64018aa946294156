/**
 * The menu plugin (plugins/menu.js): an image with a caption listing the commands and the
 * bot's uptime, and a fallback reply when the image cannot be sent.
 */
module Menu {
  import opened Wrappers
  import Text

  /** The prefix the menu shows, fixed in the plugin whatever prefix the dispatch uses. */
  const MENU_PREFIX := "."

  const MSG_FAILED := "Failed to send menu."

  // The caption template, cut at its three substitutions.
  const HEAD := "『 👋 Hello 』\n> *𝚂𝙸𝙻𝙰 𝙼𝙳* Menu\n\n┏━━━━━━━━━━━━━━━➢\n┠➥ *ᴠᴇʀsɪᴏɴ: 1.0.0*\n┠➥ *ᴘʀᴇғɪx: "
  const MID_MEMORY := "*\n┠➥ *ᴛᴏᴛᴀʟ ᴍᴇᴍᴏʀʏ: "
  const MID_UPTIME := " MB*\n┠➥ *ᴜᴘᴛɪᴍᴇ: "
  const TAIL := "*\n┗━━━━━━━━━━━━━━━➢\n\n*Commands*:\n➥ .menu\n➥ .ping\n➥ .song <query/url>\n➥ .settings (owner only)\n➥ .welcome on|off (owner)\n➥ .goodbye on|off (owner)\n"

  /** JavaScript's `a % b` for `b > 0`: the remainder takes the sign of `a`. */
  function JsRem(a: int, b: int): (r: int)
    requires b > 0
    ensures a >= 0 ==> r == a % b
    ensures a < 0 ==> -b < r <= 0
    ensures exists q :: a == b * q + r
  {
    if a >= 0 then
      assert a == b * (a / b) + a % b;
      a % b
    else
      var q := -((-a) / b);
      assert -a == b * ((-a) / b) + (-a) % b;
      assert a == b * q + -((-a) % b);
      -((-a) % b)
  }

  /**
   * `Math.floor((now - (start || now)) / 1000)`, in milliseconds. `start` is the entry of
   * `global.__socketStartTime` for the number: None when there is none, and an entry of 0
   * is as good as none.
   */
  function UptimeSeconds(now: int, start: Option<int>): int {
    var since := if start.Some? && start.value != 0 then start.value else now;
    (now - since) / 1000
  }

  datatype Clock = Clock(hours: int, minutes: int, seconds: int)

  /** Hours, minutes and seconds as the template computes them from `u` seconds. */
  function Split(u: int): Clock {
    Clock(u / 3600, JsRem(u, 3600) / 60, JsRem(u, 60))
  }

  /** For a non-negative uptime the three parts recompose it, minutes and seconds below 60. */
  lemma SplitRecomposes(u: int)
    requires u >= 0
    ensures var c := Split(u);
            && c.hours * 3600 + c.minutes * 60 + c.seconds == u
            && 0 <= c.minutes < 60 && 0 <= c.seconds < 60 && c.hours >= 0
  {
    assert JsRem(u, 3600) == u % 3600 && JsRem(u, 60) == u % 60;
    ClockArithmetic(u);
  }

  lemma ClockArithmetic(u: int)
    requires u >= 0
    ensures (u / 3600) * 3600 + ((u % 3600) / 60) * 60 + u % 60 == u
    ensures 0 <= (u % 3600) / 60 < 60 && 0 <= u % 60 < 60 && u / 3600 >= 0
  {
    var q, r := u / 3600, u % 3600;
    assert u == 3600 * q + r && 0 <= r < 3600;
    assert u == 60 * (60 * q + r / 60) + r % 60;
    assert u % 60 == r % 60;
  }

  function UptimeText(c: Clock): string {
    Text.IntToString(c.hours) + "h " + Text.IntToString(c.minutes) + "m " + Text.IntToString(c.seconds) + "s"
  }

  /** The caption: the fixed prefix, the memory figure as given, and the uptime. */
  function Caption(memoryMb: string, now: int, start: Option<int>): string {
    HEAD + MENU_PREFIX + MID_MEMORY + memoryMb + MID_UPTIME + UptimeText(Split(UptimeSeconds(now, start))) + TAIL
  }

  /** Without a start time for the number, which nothing in the bot records, the uptime reads 0h 0m 0s. */
  lemma NoStartTimeShowsZero(memoryMb: string, now: int, start: Option<int>)
    requires start.None? || start == Some(0)
    ensures Caption(memoryMb, now, start) == HEAD + MENU_PREFIX + MID_MEMORY + memoryMb + MID_UPTIME + "0h 0m 0s" + TAIL
  {
    ZeroUptime(now, start);
  }

  lemma ZeroUptime(now: int, start: Option<int>)
    requires start.None? || start == Some(0)
    ensures UptimeText(Split(UptimeSeconds(now, start))) == "0h 0m 0s"
  {
    assert UptimeSeconds(now, start) == 0;
    assert Split(0) == Clock(0, 0, 0);
    assert Text.IntToString(0) == "0";
  }

  /** With a start time, the uptime shown is the whole seconds since then, split into h, m and s. */
  lemma UptimeSinceStart(now: int, start: int)
    requires start != 0 && now >= start
    ensures var c := Split(UptimeSeconds(now, Some(start)));
            c.hours * 3600 + c.minutes * 60 + c.seconds == (now - start) / 1000
            && (now - start) / 1000 * 1000 <= now - start < ((now - start) / 1000 + 1) * 1000
  {
    SplitRecomposes((now - start) / 1000);
  }

  datatype Effect = SendImage(jid: string, url: string, caption: string) | Reply(text: string)

  /** `handle`: the image with its caption, and the fallback reply when that send throws. */
  function Handle(jid: string, url: string, memoryMb: string, now: int, start: Option<int>, sendFails: bool)
    : (es: seq<Effect>)
    ensures |es| >= 1 && es[0] == SendImage(jid, url, Caption(memoryMb, now, start))
    ensures sendFails <==> |es| == 2
    ensures |es| <= 2
    ensures sendFails ==> es[1] == Reply(MSG_FAILED)
  {
    [SendImage(jid, url, Caption(memoryMb, now, start))] + (if sendFails then [Reply(MSG_FAILED)] else [])
  }
}
