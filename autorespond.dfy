/**
 * The keyword auto-responder (plugins/autorespond.js): every message body is matched,
 * lowercased, against a fixed table of rules, and the first rule with a key occurring in
 * it gives the one reply.
 */
module AutoRespond {
  import opened Wrappers
  import Text

  datatype Rule = Rule(keys: seq<string>, resp: string)

  // The replies carry the emoji as they appear in the file: UTF-8 bytes of U+1F60A and
  // U+1F4AB read as Windows-1252 ("ðŸ˜Š" and "ðŸ’«").
  const SMILE := "\U{00F0}\U{0178}\U{02DC}\U{0160}"
  const DIZZY := "\U{00F0}\U{0178}\U{2019}\U{00AB}"

  const GREETING := "Hi! Habari yako? " + SMILE

  /** The rule table, in its order. */
  const RULES: seq<Rule> := [
    Rule(["hi", "hello", "hey"], GREETING),
    Rule(["salaam", "salamu", "as-salaam"], "Salam! Habari, ninaweza kukusaidia?"),
    Rule(["bye", "goodbye", "kwaheri"], "Kwaheri! Uwe na siku njema " + DIZZY),
    Rule(["tnx", "thanks", "asante"], "Karibu " + SMILE),
    Rule(["status", "seen status", "seen"], "SEEN YOUR STATUS BY SILA MD")
  ]

  /** The test of the inner loop as written: `normalized === k || normalized.includes(k)`. */
  predicate KeyHit(normalized: string, k: string) {
    normalized == k || Text.Contains(normalized, k)
  }

  /** Some key of the list, tried in order, hits. */
  predicate AnyKeyHits(normalized: string, keys: seq<string>) {
    keys != [] && (KeyHit(normalized, keys[0]) || AnyKeyHits(normalized, keys[1..]))
  }

  /** The two loops: the reply of the first rule, from index `i` on, one of whose keys hits. */
  function Search(rules: seq<Rule>, normalized: string, i: nat): Option<string>
    requires i <= |rules|
    decreases |rules| - i
  {
    if i == |rules| then None
    else if AnyKeyHits(normalized, rules[i].keys) then Some(rules[i].resp)
    else Search(rules, normalized, i + 1)
  }

  /** `handle`: no reply to an empty text; otherwise the search over the lowercased text. */
  function Respond(text: string): Option<string> {
    if text == "" then None else Search(RULES, Text.ToLower(text), 0)
  }

  /** A key occurs in the text: the reference reading of a rule's match. */
  predicate Occurs(normalized: string, r: Rule) {
    exists k :: 0 <= k < |r.keys| && Text.Contains(normalized, r.keys[k])
  }

  /** The `===` test adds nothing: a key equal to the text also occurs in it. */
  lemma {:induction false} EqualityIsSubsumed(normalized: string, keys: seq<string>)
    ensures AnyKeyHits(normalized, keys) <==> Occurs(normalized, Rule(keys, ""))
  {
    if keys != [] {
      if normalized == keys[0] {
        assert Text.OccursAt(normalized, keys[0], 0);
        Text.ContainsIff(normalized, keys[0]);
      }
      EqualityIsSubsumed(normalized, keys[1..]);
      var r := Rule(keys, "");
      if Occurs(normalized, r) {
        var k :| 0 <= k < |keys| && Text.Contains(normalized, keys[k]);
        if k > 0 {
          assert keys[1..][k - 1] == keys[k];
        }
      }
      if Occurs(normalized, Rule(keys[1..], "")) {
        var k :| 0 <= k < |keys| - 1 && Text.Contains(normalized, keys[1..][k]);
        assert keys[k + 1] == keys[1..][k];
      }
    }
  }

  /**
   * Rule order decides, not where a key sits in the text: the reply is that of rule `i`
   * exactly when a key of rule `i` occurs and no key of an earlier rule does.
   */
  lemma {:induction false} SearchFindsFirst(rules: seq<Rule>, normalized: string, from: nat, i: nat)
    requires from <= i < |rules|
    requires forall j :: from <= j < i ==> !Occurs(normalized, rules[j])
    requires Occurs(normalized, rules[i])
    ensures Search(rules, normalized, from) == Some(rules[i].resp)
    decreases i - from
  {
    EqualityIsSubsumed(normalized, rules[from].keys);
    assert Occurs(normalized, rules[from]) <==> Occurs(normalized, Rule(rules[from].keys, ""));
    if from < i {
      SearchFindsFirst(rules, normalized, from + 1, i);
    }
  }

  /** No key occurring anywhere in the table means no reply from the search. */
  lemma {:induction false} SearchFindsNone(rules: seq<Rule>, normalized: string, from: nat)
    requires from <= |rules|
    requires forall j :: from <= j < |rules| ==> !Occurs(normalized, rules[j])
    ensures Search(rules, normalized, from) == None
    decreases |rules| - from
  {
    if from < |rules| {
      EqualityIsSubsumed(normalized, rules[from].keys);
      assert Occurs(normalized, rules[from]) <==> Occurs(normalized, Rule(rules[from].keys, ""));
      SearchFindsNone(rules, normalized, from + 1);
    }
  }

  /** Whatever the search answers is the reply of some rule one of whose keys occurs. */
  lemma {:induction false} SearchAnswersAHit(rules: seq<Rule>, normalized: string, from: nat)
    requires from <= |rules|
    ensures var r := Search(rules, normalized, from);
            r.Some? ==> exists i :: from <= i < |rules| && r.value == rules[i].resp && Occurs(normalized, rules[i])
    decreases |rules| - from
  {
    if from < |rules| {
      EqualityIsSubsumed(normalized, rules[from].keys);
      assert Occurs(normalized, rules[from]) <==> Occurs(normalized, Rule(rules[from].keys, ""));
      SearchAnswersAHit(rules, normalized, from + 1);
    }
  }

  /** The first rule, in table order, with a key in the lowercased text gives the reply. */
  lemma FirstRuleWins(text: string, i: nat)
    requires text != "" && i < |RULES|
    requires Occurs(Text.ToLower(text), RULES[i])
    requires forall j :: 0 <= j < i ==> !Occurs(Text.ToLower(text), RULES[j])
    ensures Respond(text) == Some(RULES[i].resp)
  {
    SearchFindsFirst(RULES, Text.ToLower(text), 0, i);
  }

  /** The search finds nothing exactly when no rule has a key that occurs. */
  lemma SearchNoneIff(rules: seq<Rule>, normalized: string)
    ensures Search(rules, normalized, 0).None? <==> forall j :: 0 <= j < |rules| ==> !Occurs(normalized, rules[j])
  {
    if forall j :: 0 <= j < |rules| ==> !Occurs(normalized, rules[j]) {
      SearchFindsNone(rules, normalized, 0);
    } else {
      SearchAnswersAHit(rules, normalized, 0);
      var i :| 0 <= i < |rules| && Occurs(normalized, rules[i]);
      SearchSomeWhenHit(rules, normalized, 0, i);
    }
  }

  lemma {:induction false} SearchSomeWhenHit(rules: seq<Rule>, normalized: string, from: nat, i: nat)
    requires from <= i < |rules| && Occurs(normalized, rules[i])
    ensures Search(rules, normalized, from).Some?
    decreases i - from
  {
    EqualityIsSubsumed(normalized, rules[from].keys);
    assert Occurs(normalized, rules[from]) <==> Occurs(normalized, Rule(rules[from].keys, ""));
    if from < i && !AnyKeyHits(normalized, rules[from].keys) {
      SearchSomeWhenHit(rules, normalized, from + 1, i);
    }
  }

  /** No reply exactly when the text is empty or no key of any rule occurs in it. */
  lemma NoReplyIff(text: string)
    ensures Respond(text).None? <==>
            text == "" || forall j :: 0 <= j < |RULES| ==> !Occurs(Text.ToLower(text), RULES[j])
  {
    SearchNoneIff(RULES, Text.ToLower(text));
  }

  /**
   * Any text holding "hello" gets the greeting, even with a farewell key such as "bye" ahead
   * of it ("bye hello"): the greeting rule comes first in the table.
   */
  lemma HelloGreets(text: string)
    requires Text.Contains(Text.ToLower(text), "hello")
    ensures Respond(text) == Some(GREETING)
  {
    assert text != "" by {
      Text.ContainsIff(Text.ToLower(text), "hello");
      var j :| Text.OccursAt(Text.ToLower(text), "hello", j);
    }
    assert Occurs(Text.ToLower(text), RULES[0]) by { assert RULES[0].keys[1] == "hello"; }
    FirstRuleWins(text, 0);
  }
}
