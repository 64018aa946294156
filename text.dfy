/**
 * The JavaScript string operations the bot relies on, over `seq<char>`:
 * `replace(/[^0-9]/g, '')`, `indexOf`/`includes`/`startsWith`,
 * `split` with a string separator and `join`, `split(/ +/)`, `trim`,
 * `replace('.', '')` (first occurrence only) and `toLowerCase` restricted
 * to ASCII.
 */
module Text {
  import opened Wrappers

  // ---------------------------------------------------------------------
  // Digit sanitisation: `s.replace(/[^0-9]/g, '')`
  // ---------------------------------------------------------------------

  predicate IsDigit(c: char) {
    '0' <= c <= '9'
  }

  predicate AllDigits(s: string) {
    forall i :: 0 <= i < |s| ==> IsDigit(s[i])
  }

  /** The digits of `s`, in their original order. */
  function Digits(s: string): (r: string)
    ensures |r| <= |s|
    ensures AllDigits(r)
  {
    if s == [] then [] else (if IsDigit(s[0]) then [s[0]] else []) + Digits(s[1..])
  }

  /** Sanitising distributes over concatenation: it works character by character, keeping order. */
  lemma {:induction false} DigitsAppend(a: string, b: string)
    ensures Digits(a + b) == Digits(a) + Digits(b)
  {
    if a == [] {
      assert a + b == b;
    } else {
      assert (a + b)[1..] == a[1..] + b;
      DigitsAppend(a[1..], b);
    }
  }

  /** A string made of digits only is left unchanged; in particular sanitising is idempotent. */
  lemma {:induction false} DigitsOfDigitString(s: string)
    requires AllDigits(s)
    ensures Digits(s) == s
  {
    if s != [] {
      DigitsOfDigitString(s[1..]);
    }
  }

  /** A string with no digit sanitises to the empty string. */
  lemma {:induction false} DigitsOfNonDigitString(s: string)
    requires forall i :: 0 <= i < |s| ==> !IsDigit(s[i])
    ensures Digits(s) == []
  {
    if s != [] {
      DigitsOfNonDigitString(s[1..]);
    }
  }

  lemma DigitsIdempotent(s: string)
    ensures Digits(Digits(s)) == Digits(s)
  {
    DigitsOfDigitString(Digits(s));
  }

  // ---------------------------------------------------------------------
  // Searching: `indexOf`, `includes`, `startsWith`
  // ---------------------------------------------------------------------

  /** `p` occurs in `s` starting at index `j`. */
  predicate OccursAt(s: string, p: string, j: int) {
    0 <= j && j + |p| <= |s| && s[j..j + |p|] == p
  }

  predicate StartsWith(s: string, p: string) {
    |p| <= |s| && s[..|p|] == p
  }

  predicate EndsWith(s: string, p: string) {
    |p| <= |s| && s[|s| - |p|..] == p
  }

  function IndexFrom(s: string, p: string, k: nat): (r: Option<nat>)
    requires k <= |s|
    ensures r.Some? ==> k <= r.value && OccursAt(s, p, r.value)
    ensures r.Some? ==> forall j :: k <= j < r.value ==> !OccursAt(s, p, j)
    ensures r.None? ==> forall j :: k <= j <= |s| ==> !OccursAt(s, p, j)
    decreases |s| - k
  {
    if OccursAt(s, p, k) then Some(k)
    else if k == |s| then None
    else IndexFrom(s, p, k + 1)
  }

  /** `s.indexOf(p)`: the first position at which `p` occurs, if any. */
  function IndexOf(s: string, p: string): (r: Option<nat>)
    ensures r.Some? ==> OccursAt(s, p, r.value)
    ensures r.Some? ==> forall j :: 0 <= j < r.value ==> !OccursAt(s, p, j)
    ensures r.None? ==> forall j :: 0 <= j <= |s| ==> !OccursAt(s, p, j)
  {
    IndexFrom(s, p, 0)
  }

  /** `s.includes(p)` */
  predicate Contains(s: string, p: string) {
    IndexOf(s, p).Some?
  }

  lemma ContainsIff(s: string, p: string)
    ensures Contains(s, p) <==> exists j :: OccursAt(s, p, j)
  {
    if Contains(s, p) {
      assert OccursAt(s, p, IndexOf(s, p).value);
    }
  }

  /** A string that starts with `p` finds `p` at position 0. */
  lemma IndexOfPrefix(s: string, p: string)
    requires StartsWith(s, p)
    ensures IndexOf(s, p) == Some(0)
  {
    assert OccursAt(s, p, 0);
  }

  /** What occurs in a part of `s` occurs in `s`. */
  lemma OccursInSlice(s: string, p: string, a: nat, b: nat, j: int)
    requires a <= b <= |s|
    requires OccursAt(s[a..b], p, j)
    ensures OccursAt(s, p, a + j)
  {
    forall k | 0 <= k < |p| ensures s[a + j + k] == p[k] {
      assert s[a..b][j..j + |p|][k] == p[k];
    }
    assert s[a + j..a + j + |p|] == p;
  }

  // ---------------------------------------------------------------------
  // `split` with a non-empty string separator, and `join`
  // ---------------------------------------------------------------------

  /** `s.split(sep)`: the pieces between the occurrences of `sep`, left to right. */
  function Split(s: string, sep: string): (r: seq<string>)
    requires |sep| > 0
    ensures |r| >= 1
    decreases |s|
  {
    match IndexOf(s, sep)
    case None => [s]
    case Some(i) => [s[..i]] + Split(s[i + |sep|..], sep)
  }

  /** `parts.join(sep)` */
  function Join(parts: seq<string>, sep: string): string {
    if parts == [] then ""
    else if |parts| == 1 then parts[0]
    else parts[0] + sep + Join(parts[1..], sep)
  }

  /** Splitting loses nothing: joining the pieces back gives the original string. */
  lemma {:induction false} JoinSplit(s: string, sep: string)
    requires |sep| > 0
    ensures Join(Split(s, sep), sep) == s
    decreases |s|
  {
    match IndexOf(s, sep)
    case None =>
    case Some(i) =>
      var rest := s[i + |sep|..];
      var parts := Split(s, sep);
      assert parts == [s[..i]] + Split(rest, sep);
      assert |parts| >= 2 && parts[1..] == Split(rest, sep);
      JoinSplit(rest, sep);
      assert Join(parts, sep) == s[..i] + sep + rest;
      assert s[i..i + |sep|] == sep;
      assert s == s[..i] + s[i..i + |sep|] + rest;
  }

  /** No piece of a split contains the separator. */
  lemma {:induction false} SplitPiecesFree(s: string, sep: string)
    requires |sep| > 0
    ensures forall k :: 0 <= k < |Split(s, sep)| ==> !Contains(Split(s, sep)[k], sep)
    decreases |s|
  {
    match IndexOf(s, sep)
    case None =>
      assert Split(s, sep) == [s];
    case Some(i) =>
      var rest := s[i + |sep|..];
      SplitPiecesFree(rest, sep);
      HeadPieceFree(s, sep, i);
      assert Split(s, sep) == [s[..i]] + Split(rest, sep);
  }

  lemma HeadPieceFree(s: string, sep: string, i: nat)
    requires |sep| > 0
    requires IndexOf(s, sep) == Some(i)
    ensures !Contains(s[..i], sep)
  {
    if Contains(s[..i], sep) {
      var j := IndexOf(s[..i], sep).value;
      OccursInSlice(s, sep, 0, i, j);
      assert false;
    }
  }

  /** The first piece of a split is the text before the first separator (all of `s` when there is none). */
  function Before(s: string, sep: string): (r: string)
    requires |sep| > 0
    ensures IndexOf(s, sep).None? ==> r == s
    ensures IndexOf(s, sep).Some? ==> r == s[..IndexOf(s, sep).value]
  {
    Split(s, sep)[0]
  }

  /** `s.split(sep).slice(1).join(sep)`: everything after the first separator ("" when there is none). */
  function After(s: string, sep: string): (r: string)
    requires |sep| > 0
  {
    Join(Split(s, sep)[1..], sep)
  }

  lemma AfterIsSuffix(s: string, sep: string)
    requires |sep| > 0
    ensures IndexOf(s, sep).None? ==> After(s, sep) == ""
    ensures IndexOf(s, sep).Some? ==> After(s, sep) == s[IndexOf(s, sep).value + |sep|..]
  {
    match IndexOf(s, sep)
    case None =>
    case Some(i) =>
      var rest := s[i + |sep|..];
      assert Split(s, sep)[1..] == Split(rest, sep);
      JoinSplit(rest, sep);
  }

  /** `(sep + t).split(sep)[1]` is `t` when `t` holds no further separator. */
  lemma SecondPieceAfterPrefix(sep: string, t: string)
    requires |sep| > 0
    requires !Contains(t, sep)
    ensures |Split(sep + t, sep)| >= 2 && Split(sep + t, sep)[1] == t
  {
    var s := sep + t;
    IndexOfPrefix(s, sep);
    assert s[|sep|..] == t;
  }

  /** `s.split(sep)[1]` for a string `s` that starts with `sep`: the text up to the next separator. */
  function SecondPiece(s: string, sep: string): (r: string)
    requires |sep| > 0
    requires StartsWith(s, sep)
    ensures r == Before(s[|sep|..], sep)
  {
    IndexOfPrefix(s, sep);
    Split(s, sep)[1]
  }

  /**
   * With a one-character separator that `w` does not hold, `w` is the first piece of
   * `w + sep + rest` and `rest` is everything after it.
   */
  lemma SplitAtFirst(w: string, sep: string, rest: string)
    requires |sep| == 1 && sep[0] !in w
    ensures IndexOf(w + sep + rest, sep) == Some(|w|)
    ensures Before(w + sep + rest, sep) == w
    ensures After(w + sep + rest, sep) == rest
  {
    var s := w + sep + rest;
    assert s[|w|..|w| + 1] == sep;
    assert OccursAt(s, sep, |w|);
    assert forall j :: 0 <= j < |w| ==> s[j] == w[j] && w[j] in w;
    assert s[..|w|] == w;
    AfterIsSuffix(s, sep);
    assert s[|w| + 1..] == rest;
  }

  // ---------------------------------------------------------------------
  // `split(/ +/)`: split on runs of spaces
  // ---------------------------------------------------------------------

  function SkipSpaces(s: string): (r: string)
    ensures |r| <= |s| && r == s[|s| - |r|..]
    ensures r != [] ==> r[0] != ' '
    ensures forall k :: 0 <= k < |s| - |r| ==> s[k] == ' '
  {
    if s != [] && s[0] == ' ' then SkipSpaces(s[1..]) else s
  }

  /** Length of the leading run of characters other than a space. */
  function WordEnd(s: string): (n: nat)
    ensures n <= |s|
    ensures forall k :: 0 <= k < n ==> s[k] != ' '
    ensures n < |s| ==> s[n] == ' '
  {
    if s == [] || s[0] == ' ' then 0 else 1 + WordEnd(s[1..])
  }

  /** `s.split(/ +/)` */
  function Words(s: string): (r: seq<string>)
    ensures |r| >= 1
    decreases |s|
  {
    var n := WordEnd(s);
    if n == |s| then [s] else [s[..n]] + Words(SkipSpaces(s[n + 1..]))
  }

  /** No word contains a space. */
  lemma {:induction false} WordsHaveNoSpace(s: string)
    ensures forall k :: 0 <= k < |Words(s)| ==> ' ' !in Words(s)[k]
    decreases |s|
  {
    FirstWordHasNoSpace(s);
    if WordEnd(s) < |s| {
      var rest := WordsStep(s);
      WordsHaveNoSpace(rest);
      NoSpaceCons(s[..WordEnd(s)], Words(rest));
    }
  }

  /** The words of `s`: its first word, then those of what follows the spaces after it. */
  lemma WordsStep(s: string) returns (rest: string)
    ensures WordEnd(s) == |s| ==> Words(s) == [s]
    ensures WordEnd(s) < |s| ==> |rest| < |s| && Words(s) == [s[..WordEnd(s)]] + Words(rest)
  {
    rest := if WordEnd(s) < |s| then SkipSpaces(s[WordEnd(s) + 1..]) else "";
  }

  lemma FirstWordHasNoSpace(s: string)
    ensures ' ' !in s[..WordEnd(s)]
  {
    var n := WordEnd(s);
    forall k | 0 <= k < n ensures s[..n][k] != ' ' { assert s[..n][k] == s[k]; }
  }

  lemma NoSpaceCons(w: string, ws: seq<string>)
    requires ' ' !in w && forall k :: 0 <= k < |ws| ==> ' ' !in ws[k]
    ensures forall k :: 0 <= k < |[w] + ws| ==> ' ' !in ([w] + ws)[k]
  {
    forall k | 0 <= k < |[w] + ws| ensures ' ' !in ([w] + ws)[k] {
      if k > 0 { assert ([w] + ws)[k] == ws[k - 1]; }
    }
  }

  /** Joining non-empty, space-free words with single spaces and splitting again gives the words back. */
  lemma {:induction false} WordsJoin(ws: seq<string>)
    requires |ws| >= 1
    requires forall k :: 0 <= k < |ws| ==> ws[k] != [] && ' ' !in ws[k]
    ensures Words(Join(ws, " ")) == ws
    decreases |ws|
  {
    var w := ws[0];
    if |ws| == 1 {
      assert Join(ws, " ") == w;
      assert forall k :: 0 <= k < |w| ==> w[k] in w;
    } else {
      var tail := ws[1..];
      var t := Join(tail, " ");
      var s := w + " " + t;
      assert Join(ws, " ") == s;
      WordsJoin(tail);
      assert t != [] && t[0] != ' ' by {
        JoinHead(tail, " ");
      }
      var n := WordEnd(s);
      assert s[|w|] == ' ';
      assert forall k :: 0 <= k < |w| ==> s[k] == w[k] && w[k] in w;
      assert s[..n] == w;
      assert s[n + 1..] == t;
    }
  }

  /** A join starts with its first part. */
  lemma JoinHead(parts: seq<string>, sep: string)
    requires |parts| >= 1
    ensures |Join(parts, sep)| >= |parts[0]| && Join(parts, sep)[..|parts[0]|] == parts[0]
  {
  }

  // ---------------------------------------------------------------------
  // `trim`
  // ---------------------------------------------------------------------

  /** The characters JavaScript's `trim` removes: WhiteSpace and LineTerminator of ECMA-262. */
  predicate IsJsSpace(c: char) {
    c == ' ' || c == '\t' || c == '\n' || c == '\r' || c == '\U{000B}' || c == '\U{000C}' ||
    c == '\U{00A0}' || c == '\U{FEFF}' || c == '\U{1680}' || ('\U{2000}' <= c <= '\U{200A}') ||
    c == '\U{2028}' || c == '\U{2029}' || c == '\U{202F}' || c == '\U{205F}' || c == '\U{3000}'
  }

  /** The first position at or after `i` that does not hold white space, or `|s|`. */
  function SkipSpaceForward(s: string, i: nat): (j: nat)
    requires i <= |s|
    ensures i <= j <= |s|
    ensures forall k :: i <= k < j ==> IsJsSpace(s[k])
    ensures j < |s| ==> !IsJsSpace(s[j])
    decreases |s| - i
  {
    if i < |s| && IsJsSpace(s[i]) then SkipSpaceForward(s, i + 1) else i
  }

  /** Where the run of white space that ends at `j` starts, going back no further than `lo`. */
  function SkipSpaceBackward(s: string, lo: nat, j: nat): (m: nat)
    requires lo <= j <= |s|
    ensures lo <= m <= j
    ensures forall k :: m <= k < j ==> IsJsSpace(s[k])
    ensures lo < m ==> !IsJsSpace(s[m - 1])
  {
    if lo < j && IsJsSpace(s[j - 1]) then SkipSpaceBackward(s, lo, j - 1) else j
  }

  /**
   * `s.trim()`: `s` without its leading and trailing white space, that is the slice of `s`
   * that is left once only white space has been cut from either end, and that neither
   * starts nor ends with white space.
   */
  function Trim(s: string): (r: string)
    ensures |r| <= |s|
    ensures r != [] ==> !IsJsSpace(r[0]) && !IsJsSpace(r[|r| - 1])
    ensures exists i, j :: 0 <= i <= j <= |s| && r == s[i..j] &&
              (forall k :: 0 <= k < i ==> IsJsSpace(s[k])) && (forall k :: j <= k < |s| ==> IsJsSpace(s[k]))
  {
    var i := SkipSpaceForward(s, 0);
    var j := SkipSpaceBackward(s, i, |s|);
    s[i..j]
  }

  /** A string that neither starts nor ends with white space is its own trim. */
  lemma TrimUnchanged(s: string)
    requires s != [] ==> !IsJsSpace(s[0]) && !IsJsSpace(s[|s| - 1])
    ensures Trim(s) == s
  {
  }

  // ---------------------------------------------------------------------
  // `replace('.', '')` and `toLowerCase()`
  // ---------------------------------------------------------------------

  /** `s.replace(c, '')` with a one-character string pattern: only the first occurrence goes. */
  function RemoveFirst(s: string, c: char): (r: string)
    ensures c !in s ==> r == s
    ensures c in s ==> |r| == |s| - 1
    ensures c in s ==> exists i :: 0 <= i < |s| && s[i] == c && c !in s[..i] && r == s[..i] + s[i + 1..]
  {
    match IndexOf(s, [c])
    case None =>
      assert forall j :: 0 <= j < |s| ==> s[j] != c by {
        forall j | 0 <= j < |s| ensures s[j] != c { assert !OccursAt(s, [c], j); }
      }
      s
    case Some(i) =>
      assert s[i] == c;
      assert c !in s[..i] by {
        forall j | 0 <= j < i ensures s[..i][j] != c { assert !OccursAt(s, [c], j); }
      }
      s[..i] + s[i + 1..]
  }

  function LowerChar(c: char): char {
    if 'A' <= c <= 'Z' then (c as int + 32) as char else c
  }

  /** `s.toLowerCase()`, with case mapping restricted to ASCII. */
  function ToLower(s: string): (r: string)
    ensures |r| == |s|
    ensures forall i :: 0 <= i < |s| ==> r[i] == LowerChar(s[i])
  {
    if s == [] then [] else [LowerChar(s[0])] + ToLower(s[1..])
  }

  /** A text with no upper-case ASCII letter is its own lowercase. */
  lemma LowerOfLowerCase(s: string)
    requires forall i :: 0 <= i < |s| ==> !('A' <= s[i] <= 'Z')
    ensures ToLower(s) == s
  {
    assert forall i :: 0 <= i < |s| ==> ToLower(s)[i] == s[i];
  }

  // ---------------------------------------------------------------------
  // Template literals: `${n}` for an integer
  // ---------------------------------------------------------------------

  function DigitChar(d: nat): char
    requires d < 10
  {
    ('0' as int + d) as char
  }

  /** The number a text of decimal digits denotes, most significant digit first. */
  function DecimalValue(r: string): nat
    requires AllDigits(r)
  {
    if r == [] then 0 else DecimalValue(r[..|r| - 1]) * 10 + (r[|r| - 1] as int - '0' as int)
  }

  /** Decimal text of a natural number: it denotes the number and has no leading zero. */
  function NatToString(n: nat): (r: string)
    ensures r != [] && AllDigits(r)
    ensures DecimalValue(r) == n
    ensures r[0] == '0' ==> n == 0
  {
    if n < 10 then [DigitChar(n)]
    else
      var front := NatToString(n / 10);
      var r := front + [DigitChar(n % 10)];
      assert r[..|r| - 1] == front;
      r
  }

  /** Decimal text of an integer, with a leading '-' when negative. */
  function IntToString(n: int): string {
    if n < 0 then "-" + NatToString(-n) else NatToString(n)
  }
}
