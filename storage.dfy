/**
 * The bot's key-value store (file-storage.js): per-number settings and the
 * table of saved sessions. Both tables live in memory; the JSON files they
 * are loaded from and written back to are not modelled.
 */
module FileStorage {
  import opened Wrappers
  import Text

  /** A JSON value held in a settings entry. */
  datatype Value = Str(text: string) | Bool(flag: bool)

  /** JavaScript truthiness of a stored value. */
  predicate Truthy(v: Value) {
    match v
    case Str(t) => t != ""
    case Bool(b) => b
  }

  /** One number's settings object. */
  type Settings = map<string, Value>

  /** The settings table, keyed by the digits of a number. */
  type SettingsTable = map<string, Settings>

  /** What `getSettings` answers for a number that has no entry. */
  function Defaults(): Settings {
    map["worktype" := Str("public"), "autoread" := Bool(true), "online" := Bool(true),
        "autoswview" := Bool(true), "autoswlike" := Bool(true)]
  }

  /** `getSettings(number)`: the entry under the digits of `number`, or the defaults. */
  function SettingsFor(table: SettingsTable, number: string): Settings {
    var key := Text.Digits(number);
    if key in table then table[key] else Defaults()
  }

  /** `saveSettings(number, patch)`: shallow-merges `patch` over the entry (or over `{}`). */
  function Saved(table: SettingsTable, number: string, patch: Settings): SettingsTable {
    var key := Text.Digits(number);
    var current := if key in table then table[key] else map[];
    table[key := current + patch]
  }

  /** A stored entry is answered unchanged: no default is merged into it. */
  lemma StoredEntryReturned(table: SettingsTable, number: string)
    requires Text.Digits(number) in table
    ensures SettingsFor(table, number) == table[Text.Digits(number)]
  {
  }

  /** The defaults are answered exactly when there is no entry (an entry equal to them aside). */
  lemma DefaultsOnlyWhenMissing(table: SettingsTable, number: string)
    ensures SettingsFor(table, number) == Defaults() <==>
            Text.Digits(number) !in table || table[Text.Digits(number)] == Defaults()
  {
  }

  /** Inputs with the same digits share one entry, for reading and for writing. */
  lemma SameDigitsShareEntry(table: SettingsTable, a: string, b: string, patch: Settings)
    requires Text.Digits(a) == Text.Digits(b)
    ensures SettingsFor(table, a) == SettingsFor(table, b)
    ensures Saved(table, a, patch) == Saved(table, b, patch)
  {
  }

  /**
   * Right-biased shallow merge: after a save, every patched field has the patch's value,
   * every other field of the entry is kept, and no other field appears.
   */
  lemma SaveMerges(table: SettingsTable, number: string, patch: Settings)
    ensures var key := Text.Digits(number);
            var after := SettingsFor(Saved(table, number, patch), number);
            && (forall f :: f in patch ==> f in after && after[f] == patch[f])
            && (key in table ==> forall f :: f in table[key] && f !in patch ==> f in after && after[f] == table[key][f])
            && (key in table ==> after.Keys == table[key].Keys + patch.Keys)
            && (key !in table ==> after == patch)
  {
  }

  /** A save touches no other number's entry. */
  lemma SaveLeavesOthers(table: SettingsTable, number: string, patch: Settings, other: string)
    requires Text.Digits(other) != Text.Digits(number)
    ensures SettingsFor(Saved(table, number, patch), other) == SettingsFor(table, other)
  {
  }

  /** Saving the same patch twice is the same as saving it once. */
  lemma SaveIdempotent(table: SettingsTable, number: string, patch: Settings)
    ensures Saved(Saved(table, number, patch), number, patch) == Saved(table, number, patch)
  {
    var key := Text.Digits(number);
    var once := Saved(table, number, patch);
    assert once[key] + patch == once[key];
  }

  /** A save without a patch adds an empty entry for a new number and changes nothing otherwise. */
  lemma SaveWithoutPatch(table: SettingsTable, number: string)
    ensures var key := Text.Digits(number);
            Saved(table, number, map[]) == if key in table then table else table[key := map[]]
  {
    var key := Text.Digits(number);
    if key in table {
      assert table[key] + map[] == table[key];
      assert table[key := table[key]] == table;
    }
  }

  /**
   * A save without a patch on a new number stores `{}`, and from then on the number
   * reads as `{}` rather than as the defaults. Every connection attempt does this.
   */
  lemma EmptySaveHidesDefaults(table: SettingsTable, number: string)
    requires Text.Digits(number) !in table
    ensures SettingsFor(Saved(table, number, map[]), number) == map[]
    ensures SettingsFor(Saved(table, number, map[]), number) != Defaults()
  {
    assert "worktype" in Defaults();
  }

  // ---------------------------------------------------------------------
  // Sessions
  // ---------------------------------------------------------------------

  /** A saved session: the tagged session id and the number it belongs to. */
  datatype SessionRecord = SessionRecord(sessionId: string, number: string)

  /**
   * The sessions object: records keyed by user id, with the order in which the keys were
   * first inserted (the order `Object.values` lists them in, user ids not being array indices).
   */
  datatype SessionTable = SessionTable(records: map<string, SessionRecord>, order: seq<string>) {

    ghost predicate Valid() {
      && (forall i, j :: 0 <= i < j < |order| ==> order[i] != order[j])
      && (forall k :: k in records <==> k in order)
    }

    /** `upsertSession(userId, sessionId)` */
    function Upsert(userId: string, sessionId: string): SessionTable {
      var rec := SessionRecord(sessionId, Text.Before(userId, "@"));
      SessionTable(records[userId := rec], if userId in records then order else order + [userId])
    }

    /** `findSessions()`: the records in key order. */
    function Values(): (r: seq<SessionRecord>)
      requires Valid()
      ensures |r| == |order|
      ensures forall i :: 0 <= i < |order| ==> r[i] == records[order[i]]
    {
      seq(|order|, i requires 0 <= i < |order| => records[order[i]])
    }
  }

  function EmptySessions(): (t: SessionTable)
    ensures t.Valid()
  {
    SessionTable(map[], [])
  }

  lemma UpsertKeepsValid(t: SessionTable, userId: string, sessionId: string)
    requires t.Valid()
    ensures t.Upsert(userId, sessionId).Valid()
  {
  }

  /**
   * After an upsert the user id is listed, its record carries the new session id and the
   * user id's text before '@', and every other listed record is unchanged.
   */
  lemma UpsertThenFind(t: SessionTable, userId: string, sessionId: string)
    requires t.Valid()
    ensures var u := t.Upsert(userId, sessionId);
            u.Valid() &&
            var vs := u.Values();
            && userId in u.order
            && (forall i :: 0 <= i < |vs| && u.order[i] == userId ==>
                  vs[i] == SessionRecord(sessionId, Text.Before(userId, "@")))
            && (forall i :: 0 <= i < |vs| && u.order[i] != userId ==> vs[i] == t.records[u.order[i]])
  {
    UpsertKeepsValid(t, userId, sessionId);
  }

  /**
   * An upsert lists a new user id last and leaves a known one in its place, so the sessions
   * found grow by one exactly when the user id is new; as the order never repeats a key,
   * each user id has exactly one record.
   */
  lemma UpsertOrder(t: SessionTable, userId: string, sessionId: string)
    requires t.Valid()
    ensures var u := t.Upsert(userId, sessionId);
            && (userId in t.records ==> u.order == t.order)
            && (userId !in t.records ==> u.order == t.order + [userId])
            && |u.order| == |t.order| + (if userId in t.records then 0 else 1)
            && |u.order| == |u.records|
  {
    UpsertKeepsValid(t, userId, sessionId);
    OrderCardinality(t.Upsert(userId, sessionId));
  }

  /** A valid table lists each key once, so it has as many values as keys. */
  lemma OrderCardinality(t: SessionTable)
    requires t.Valid()
    ensures |t.order| == |t.records|
  {
    DistinctCard(t.order);
    assert (set k | k in t.order) == t.records.Keys;
  }

  lemma {:induction false} DistinctCard(s: seq<string>)
    requires forall i, j :: 0 <= i < j < |s| ==> s[i] != s[j]
    ensures |set k | k in s| == |s|
  {
    if s != [] {
      var tail := s[1..];
      DistinctCard(tail);
      assert (set k | k in s) == (set k | k in tail) + {s[0]};
      assert s[0] !in tail;
    }
  }

  // ---------------------------------------------------------------------
  // The store object
  // ---------------------------------------------------------------------

  /** The single `FileStorage` instance shared by the bot and its plugins. */
  class Store {
    var settings: SettingsTable
    var sessions: SessionTable

    ghost predicate Valid()
      reads this
    {
      sessions.Valid()
    }

    /** The store as `loadData` leaves it: the tables read from disk (or empty ones). */
    constructor (settings0: SettingsTable, sessions0: SessionTable)
      requires sessions0.Valid()
      ensures Valid() && settings == settings0 && sessions == sessions0
    {
      settings := settings0;
      sessions := sessions0;
    }

    /** `getSettings`: the stored entry for the number's digits, or the defaults when there is none. */
    function GetSettings(number: string): (r: Settings)
      reads this
      ensures Text.Digits(number) in settings ==> r == settings[Text.Digits(number)]
      ensures Text.Digits(number) !in settings ==> r == Defaults()
    {
      SettingsFor(settings, number)
    }

    method SaveSettings(number: string, patch: Settings)
      requires Valid()
      modifies this
      ensures Valid()
      ensures settings == Saved(old(settings), number, patch)
      ensures sessions == old(sessions)
    {
      settings := Saved(settings, number, patch);
    }

    method UpsertSession(userId: string, sessionId: string)
      requires Valid()
      modifies this
      ensures Valid()
      ensures sessions == old(sessions).Upsert(userId, sessionId)
      ensures settings == old(settings)
    {
      UpsertKeepsValid(sessions, userId, sessionId);
      sessions := sessions.Upsert(userId, sessionId);
    }

    /** `findSessions`: one record per saved user id, in the order the ids were first saved. */
    function FindSessions(): (r: seq<SessionRecord>)
      reads this
      requires Valid()
      ensures |r| == |sessions.order| == |sessions.records|
      ensures forall i :: 0 <= i < |r| ==> sessions.order[i] in sessions.records && r[i] == sessions.records[sessions.order[i]]
    {
      OrderCardinality(sessions);
      sessions.Values()
    }
  }
}
