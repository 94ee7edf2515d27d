/**
 * The regular expressions the session engine runs over terminal output, each written
 * as a matcher that says how long the match starting at a given index is (0: none).
 * Every pattern here is deterministic: a greedy run is always followed by a character
 * outside the run's class, so backtracking never finds a different match, and the one
 * lazy pattern stops at the first terminator. `Erase` is `s.replace(re, '')` with the
 * global flag: matches are found left to right and never overlap, and anchors look at
 * the original string.
 */
module Patterns {
  import opened Wrappers

  const ESC: char := '\U{1B}'
  const BEL: char := '\U{7}'

  predicate IsDigit(c: char) { '0' <= c <= '9' }

  predicate IsAsciiLetter(c: char) { 'a' <= c <= 'z' || 'A' <= c <= 'Z' }

  /** What `.` refuses and what `^` in multiline mode follows. */
  predicate IsLineTerminator(c: char) {
    c == '\n' || c == '\r' || c == '\U{2028}' || c == '\U{2029}'
  }

  /** The class `[\x00-\x09\x0B-\x1F\x7F]`: C0 controls but line feed, and DEL. */
  predicate IsStrippedControl(c: char) {
    (c as int <= 0x1F && c != '\n') || c as int == 0x7F
  }

  /** The character classes that patterns repeat. */
  datatype CharClass = Digits | DigitsAndSemicolons | AnyButBel | AnyButBelOrEsc | Only(c: char)

  predicate InClass(c: char, cls: CharClass) {
    match cls
    case Digits => IsDigit(c)
    case DigitsAndSemicolons => IsDigit(c) || c == ';'
    case AnyButBel => c != BEL
    case AnyButBelOrEsc => c != BEL && c != ESC
    case Only(d) => c == d
  }

  /** The end of the longest run of `cls` characters that starts at `j`. */
  function RunEnd(s: string, j: nat, cls: CharClass): (e: nat)
    requires j <= |s|
    ensures j <= e <= |s|
    ensures e < |s| ==> !InClass(s[e], cls)
    decreases |s| - j
  {
    if j < |s| && InClass(s[j], cls) then RunEnd(s, j + 1, cls) else j
  }

  /** Every character of the run is in the class. */
  lemma {:induction false} RunEndSpans(s: string, j: nat, cls: CharClass)
    requires j <= |s|
    ensures forall k | j <= k < RunEnd(s, j, cls) :: InClass(s[k], cls)
    decreases |s| - j
  {
    if j < |s| && InClass(s[j], cls) {
      RunEndSpans(s, j + 1, cls);
    }
  }

  /** A run that is followed by a character outside the class ends exactly there. */
  lemma {:induction false} RunEndAt(s: string, j: nat, e: nat, cls: CharClass)
    requires j <= e < |s|
    requires forall k | j <= k < e :: InClass(s[k], cls)
    requires !InClass(s[e], cls)
    ensures RunEnd(s, j, cls) == e
    decreases e - j
  {
    if j < e {
      RunEndAt(s, j + 1, e, cls);
    }
  }

  /** The lazy `.*?\x1b\\` from `j`: the index of the first ESC \ before any line terminator. */
  function StringTerminator(s: string, j: nat): (r: Option<nat>)
    requires j <= |s|
    ensures r.Some? ==> j <= r.value && r.value + 1 < |s| && s[r.value] == ESC && s[r.value + 1] == '\\'
    decreases |s| - j
  {
    if j + 1 >= |s| then None
    else if s[j] == ESC && s[j + 1] == '\\' then Some(j)
    else if IsLineTerminator(s[j]) then None
    else StringTerminator(s, j + 1)
  }

  datatype Pattern =
    | SgrSequence           // \x1b\[[0-9;]*m
    | CsiSequence           // \x1b\[[0-9;]*[a-zA-Z]
    | OscSequence           // \x1b\][^\x07]*\x07
    | StringSequence        // \x1b[PX^_].*?\x1b\\
    | PrivateModeSequence   // \x1b\[\?[0-9;]*[hl]
    | KeypadMode            // \x1b[>=]
    | ControlChar           // [\x00-\x09\x0B-\x1F\x7F]
    | CarriageReturn        // \r
    | LeadingSgrRemnant     // ^[0-9;]+m  (multiline)
    | SgrRemnant            // [0-9]+;[0-9]+;[0-9;]+m
    | OscColorQuery         // \x1b\]11;[^\x07\x1b]*(?:\x07|\x1b\\)
    | CursorPositionReport  // \x1b\[\d+;\d+R
    | Literal(text: string) // a fixed string
    | BoxBottom(left: char, fill: char, right: char) // left fill+ right

  /** The length of the match of `p` that starts at index `i` of `s`, or 0 when there is none. */
  function MatchLen(p: Pattern, s: string, i: nat): (n: nat)
    requires i <= |s|
    ensures i + n <= |s|
  {
    match p
    case SgrSequence =>
      if i + 2 <= |s| && s[i] == ESC && s[i + 1] == '[' then
        var e := RunEnd(s, i + 2, DigitsAndSemicolons);
        if e < |s| && s[e] == 'm' then e + 1 - i else 0
      else 0
    case CsiSequence =>
      if i + 2 <= |s| && s[i] == ESC && s[i + 1] == '[' then
        var e := RunEnd(s, i + 2, DigitsAndSemicolons);
        if e < |s| && IsAsciiLetter(s[e]) then e + 1 - i else 0
      else 0
    case OscSequence =>
      if i + 2 <= |s| && s[i] == ESC && s[i + 1] == ']' then
        var e := RunEnd(s, i + 2, AnyButBel);
        if e < |s| then e + 1 - i else 0
      else 0
    case StringSequence =>
      if i + 2 <= |s| && s[i] == ESC && s[i + 1] in "PX^_" then
        match StringTerminator(s, i + 2)
        case Some(t) => t + 2 - i
        case None => 0
      else 0
    case PrivateModeSequence =>
      if i + 3 <= |s| && s[i] == ESC && s[i + 1] == '[' && s[i + 2] == '?' then
        var e := RunEnd(s, i + 3, DigitsAndSemicolons);
        if e < |s| && (s[e] == 'h' || s[e] == 'l') then e + 1 - i else 0
      else 0
    case KeypadMode =>
      if i + 2 <= |s| && s[i] == ESC && (s[i + 1] == '>' || s[i + 1] == '=') then 2 else 0
    case ControlChar =>
      if i < |s| && IsStrippedControl(s[i]) then 1 else 0
    case CarriageReturn =>
      if i < |s| && s[i] == '\r' then 1 else 0
    case LeadingSgrRemnant =>
      if i == 0 || IsLineTerminator(s[i - 1]) then
        var e := RunEnd(s, i, DigitsAndSemicolons);
        if i < e < |s| && s[e] == 'm' then e + 1 - i else 0
      else 0
    case SgrRemnant =>
      var e1 := RunEnd(s, i, Digits);
      if i < e1 < |s| && s[e1] == ';' then
        var e2 := RunEnd(s, e1 + 1, Digits);
        if e1 + 1 < e2 < |s| && s[e2] == ';' then
          var e3 := RunEnd(s, e2 + 1, DigitsAndSemicolons);
          if e2 + 1 < e3 < |s| && s[e3] == 'm' then e3 + 1 - i else 0
        else 0
      else 0
    case OscColorQuery =>
      if i + 5 <= |s| && s[i..i + 5] == [ESC] + "]11;" then
        var e := RunEnd(s, i + 5, AnyButBelOrEsc);
        if e < |s| && s[e] == BEL then e + 1 - i
        else if e + 1 < |s| && s[e] == ESC && s[e + 1] == '\\' then e + 2 - i
        else 0
      else 0
    case CursorPositionReport =>
      if i + 2 <= |s| && s[i] == ESC && s[i + 1] == '[' then
        var e1 := RunEnd(s, i + 2, Digits);
        if i + 2 < e1 < |s| && s[e1] == ';' then
          var e2 := RunEnd(s, e1 + 1, Digits);
          if e1 + 1 < e2 < |s| && s[e2] == 'R' then e2 + 1 - i else 0
        else 0
      else 0
    case Literal(t) =>
      if |t| > 0 && i + |t| <= |s| && s[i..i + |t|] == t then |t| else 0
    case BoxBottom(l, f, r) =>
      if i < |s| && s[i] == l then
        var e := RunEnd(s, i + 1, Only(f));
        if i + 1 < e < |s| && s[e] == r then e + 1 - i else 0
      else 0
  }

  /** `s.replace(p, '')` with the global flag, from index `i` on. */
  function EraseFrom(p: Pattern, s: string, i: nat): (r: string)
    requires i <= |s|
    ensures |r| <= |s| - i
    decreases |s| - i
  {
    if i == |s| then []
    else
      var n := MatchLen(p, s, i);
      if n > 0 then EraseFrom(p, s, i + n) else [s[i]] + EraseFrom(p, s, i + 1)
  }

  function Erase(p: Pattern, s: string): (r: string)
    ensures |r| <= |s|
  {
    EraseFrom(p, s, 0)
  }

  /** `replace` only deletes: every character it keeps was in its input. */
  lemma {:induction false} EraseFromKeeps(p: Pattern, s: string, i: nat)
    requires i <= |s|
    ensures forall c | c in EraseFrom(p, s, i) :: c in s[i..]
    decreases |s| - i
  {
    if i < |s| {
      var n := MatchLen(p, s, i);
      if n > 0 {
        EraseFromKeeps(p, s, i + n);
        assert forall c | c in s[i + n..] :: c in s[i..] by {
          forall c | c in s[i + n..] ensures c in s[i..] {
            var k :| 0 <= k < |s[i + n..]| && s[i + n..][k] == c;
            assert s[i..][k + n] == c;
          }
        }
      } else {
        EraseFromKeeps(p, s, i + 1);
        assert s[i..] == [s[i]] + s[i + 1..];
      }
    }
  }

  /** A position where `p` does not match is copied; where nothing matches, `replace` is the identity. */
  lemma {:induction false} EraseFromNoMatch(p: Pattern, s: string, i: nat)
    requires i <= |s|
    requires forall k | i <= k < |s| :: MatchLen(p, s, k) == 0
    ensures EraseFrom(p, s, i) == s[i..]
    decreases |s| - i
  {
    if i < |s| {
      EraseFromNoMatch(p, s, i + 1);
      assert s[i..] == [s[i]] + s[i + 1..];
    }
  }

  /** Deleting every control character leaves none behind. */
  lemma {:induction false} EraseControlChars(s: string, i: nat)
    requires i <= |s|
    ensures forall c | c in EraseFrom(ControlChar, s, i) :: !IsStrippedControl(c)
    decreases |s| - i
  {
    if i < |s| {
      EraseControlChars(s, i + 1);
    }
  }

  /** The patterns whose every match begins with ESC. */
  predicate EscLed(p: Pattern) {
    match p
    case SgrSequence => true
    case CsiSequence => true
    case OscSequence => true
    case StringSequence => true
    case PrivateModeSequence => true
    case KeypadMode => true
    case OscColorQuery => true
    case CursorPositionReport => true
    case Literal(t) => |t| > 0 && t[0] == ESC
    case _ => false
  }

  /** At a character other than ESC, a pattern that starts with ESC does not match. */
  lemma EscLedNoMatch(p: Pattern, s: string, i: nat)
    requires EscLed(p) && i < |s| && s[i] != ESC
    ensures MatchLen(p, s, i) == 0
  {
    if p.Literal? && |p.text| > 0 && i + |p.text| <= |s| {
      assert s[i..i + |p.text|][0] == s[i];
    }
  }

  /** A pattern that starts with ESC leaves ESC-free text exactly as it was. */
  lemma EraseEscFree(p: Pattern, s: string)
    requires EscLed(p) && ESC !in s
    ensures Erase(p, s) == s
  {
    forall k | 0 <= k < |s| ensures MatchLen(p, s, k) == 0 {
      assert s[k] in s;
      EscLedNoMatch(p, s, k);
    }
    EraseFromNoMatch(p, s, 0);
  }

  /** `re.test(s)`: some index from `i` on starts a match. */
  predicate FoundFrom(p: Pattern, s: string, i: nat)
    requires i <= |s|
    decreases |s| - i
  {
    i < |s| && (MatchLen(p, s, i) > 0 || FoundFrom(p, s, i + 1))
  }

  lemma {:induction false} FoundFromIff(p: Pattern, s: string, i: nat)
    requires i <= |s|
    ensures FoundFrom(p, s, i) <==> exists k | i <= k < |s| :: MatchLen(p, s, k) > 0
    decreases |s| - i
  {
    if i < |s| {
      FoundFromIff(p, s, i + 1);
      if MatchLen(p, s, i) == 0 && exists k | i <= k < |s| :: MatchLen(p, s, k) > 0 {
        var k :| i <= k < |s| && MatchLen(p, s, k) > 0;
        assert k != i;
      }
    }
  }

  /** Where `left fill+ right` occurs in `s`, spelled out index by index. */
  predicate BoxBottomAt(s: string, l: char, f: char, r: char, i: nat, j: nat) {
    i + 1 < j < |s| && s[i] == l && s[j] == r && forall k | i < k < j :: s[k] == f
  }

  /** The matcher for `left fill+ right` finds exactly the occurrences above. */
  lemma BoxBottomFound(s: string, l: char, f: char, r: char)
    requires f != r
    ensures FoundFrom(BoxBottom(l, f, r), s, 0) <==> exists i: nat, j: nat :: BoxBottomAt(s, l, f, r, i, j)
  {
    var p := BoxBottom(l, f, r);
    FoundFromIff(p, s, 0);
    if FoundFrom(p, s, 0) {
      var i :| 0 <= i < |s| && MatchLen(p, s, i) > 0;
      var e := RunEnd(s, i + 1, Only(f));
      RunEndSpans(s, i + 1, Only(f));
      assert BoxBottomAt(s, l, f, r, i, e);
    }
    if exists i: nat, j: nat :: BoxBottomAt(s, l, f, r, i, j) {
      var i: nat, j: nat :| BoxBottomAt(s, l, f, r, i, j);
      RunEndAt(s, i + 1, j, Only(f));
      assert MatchLen(p, s, i) > 0;
    }
  }
}
