/**
 * The PHP string built-ins the macros rely on, on byte strings. A PHP string is a
 * sequence of bytes; here it is a `string` whose characters are bytes (code points
 * 0 to 255). Case mapping follows the C locale.
 */
module PhpString {
  import opened Wrappers

  /** PHP's truthiness of a string: only "" and "0" are falsy. */
  predicate Truthy(s: string) {
    s != "" && s != "0"
  }

  /** `ltrim($s, $c)` for one character: every leading `c` is dropped. */
  function TrimLeft(s: string, c: char): (r: string)
    ensures |r| <= |s|
    ensures r == [] || r[0] != c
  {
    if s != [] && s[0] == c then TrimLeft(s[1..], c) else s
  }

  /** What `ltrim` keeps is a suffix of its input, and what it drops is all `c`. */
  lemma {:induction false} TrimLeftShape(s: string, c: char)
    ensures TrimLeft(s, c) == s[|s| - |TrimLeft(s, c)|..]
    ensures forall i :: 0 <= i < |s| - |TrimLeft(s, c)| ==> s[i] == c
  {
    if s != [] && s[0] == c {
      TrimLeftShape(s[1..], c);
      assert s[1..][|s| - 1 - |TrimLeft(s, c)|..] == s[|s| - |TrimLeft(s, c)|..];
      forall i | 1 <= i < |s| - |TrimLeft(s, c)| ensures s[i] == c {
        assert s[1..][i - 1] == s[i];
      }
    }
  }

  predicate IsAngle(c: char) {
    c == '<' || c == '>'
  }

  function TrimAnglesLeft(s: string): (r: string)
    ensures |r| <= |s|
    ensures r == [] || !IsAngle(r[0])
  {
    if s != [] && IsAngle(s[0]) then TrimAnglesLeft(s[1..]) else s
  }

  /** Without a leading angle bracket nothing is dropped; otherwise the result is a suffix. */
  lemma {:induction false} TrimAnglesLeftShape(s: string)
    ensures TrimAnglesLeft(s) == s[|s| - |TrimAnglesLeft(s)|..]
    ensures forall i :: 0 <= i < |s| - |TrimAnglesLeft(s)| ==> IsAngle(s[i])
    ensures (forall i :: 0 <= i < |s| ==> !IsAngle(s[i])) ==> TrimAnglesLeft(s) == s
  {
    if s != [] && IsAngle(s[0]) {
      TrimAnglesLeftShape(s[1..]);
      assert s[1..][|s| - 1 - |TrimAnglesLeft(s)|..] == s[|s| - |TrimAnglesLeft(s)|..];
      forall i | 1 <= i < |s| - |TrimAnglesLeft(s)| ensures IsAngle(s[i]) {
        assert s[1..][i - 1] == s[i];
      }
    }
  }

  function TrimAnglesRight(s: string): (r: string)
    ensures |r| <= |s|
    ensures r == [] || !IsAngle(r[|r| - 1])
  {
    if s != [] && IsAngle(s[|s| - 1]) then TrimAnglesRight(s[..|s| - 1]) else s
  }

  /** Without a trailing angle bracket nothing is dropped; otherwise the result is a prefix. */
  lemma {:induction false} TrimAnglesRightShape(s: string)
    ensures TrimAnglesRight(s) == s[..|TrimAnglesRight(s)|]
    ensures forall i :: |TrimAnglesRight(s)| <= i < |s| ==> IsAngle(s[i])
    ensures (|s| == 0 || !IsAngle(s[|s| - 1])) ==> TrimAnglesRight(s) == s
  {
    if s != [] && IsAngle(s[|s| - 1]) {
      TrimAnglesRightShape(s[..|s| - 1]);
      assert s[..|s| - 1][..|TrimAnglesRight(s)|] == s[..|TrimAnglesRight(s)|];
      forall i | |TrimAnglesRight(s)| <= i < |s| - 1 ensures IsAngle(s[i]) {
        assert s[..|s| - 1][i] == s[i];
      }
    }
  }

  /** `trim($s, '<>')`: angle brackets dropped from both ends, the inside kept. */
  function TrimAngles(s: string): (r: string)
    ensures |r| <= |s|
    ensures r == [] || (!IsAngle(r[0]) && !IsAngle(r[|r| - 1]))
  {
    TrimAnglesRightShape(TrimAnglesLeft(s));
    TrimAnglesRight(TrimAnglesLeft(s))
  }

  /** What `trim` keeps is the inside of its input, which a string without angle brackets is entirely;
      what it drops at either end is angle brackets only. */
  lemma TrimAnglesShape(s: string)
    ensures var a := |s| - |TrimAnglesLeft(s)|;
            var b := a + |TrimAngles(s)|;
            && b <= |s| && TrimAngles(s) == s[a..b]
            && (forall i :: 0 <= i < a ==> IsAngle(s[i]))
            && (forall i :: b <= i < |s| ==> IsAngle(s[i]))
    ensures (forall i :: 0 <= i < |s| ==> !IsAngle(s[i])) ==> TrimAngles(s) == s
  {
    TrimAnglesLeftShape(s);
    TrimAnglesRightShape(TrimAnglesLeft(s));
  }

  /** The needle occurs in `s` starting at index `i`. */
  predicate OccursAt(s: string, needle: string, i: nat) {
    i + |needle| <= |s| && s[i..i + |needle|] == needle
  }

  /** The first occurrence of `needle` in `s` at or after index `from`. */
  function FindFrom(s: string, needle: string, from: nat): (r: Option<nat>)
    requires from <= |s|
    decreases |s| - from
    ensures r.Some? ==> from <= r.value && OccursAt(s, needle, r.value)
    ensures r.Some? ==> forall j :: from <= j < r.value ==> !OccursAt(s, needle, j)
    ensures r.None? ==> forall j :: from <= j <= |s| ==> !OccursAt(s, needle, j)
  {
    if OccursAt(s, needle, from) then Some(from)
    else if from == |s| then None
    else FindFrom(s, needle, from + 1)
  }

  /** `strpos($s, $needle)`, with PHP's FALSE as `None`. */
  function StrPos(s: string, needle: string): (r: Option<nat>)
    ensures r.Some? ==> OccursAt(s, needle, r.value) && forall j :: 0 <= j < r.value ==> !OccursAt(s, needle, j)
    ensures r.None? ==> forall j :: 0 <= j <= |s| ==> !OccursAt(s, needle, j)
  {
    FindFrom(s, needle, 0)
  }

  /** `strpos($s, $needle) !== FALSE` */
  predicate Contains(s: string, needle: string) {
    StrPos(s, needle).Some?
  }

  /** The first character class of `RE_IDENTIFIER`: `[_a-zA-Z\x7F-\xFF]`. */
  predicate IsIdentStart(c: char) {
    c == '_' || ('a' <= c <= 'z') || ('A' <= c <= 'Z') || (0x7F <= c as int <= 0xFF)
  }

  /** The repeated character class of `RE_IDENTIFIER`: `[_a-zA-Z0-9\x7F-\xFF]`. */
  predicate IsIdentChar(c: char) {
    IsIdentStart(c) || ('0' <= c <= '9')
  }

  /** `s` is a whole `RE_IDENTIFIER` word. */
  predicate IsIdentifier(s: string) {
    |s| > 0 && IsIdentStart(s[0]) && forall i :: 1 <= i < |s| ==> IsIdentChar(s[i])
  }

  /** A PCRE `$` without the D modifier also matches just before a final newline. */
  function DropFinalNewline(s: string): string {
    if |s| > 0 && s[|s| - 1] == '\n' then s[..|s| - 1] else s
  }

  /** `Strings::match($s, '#^' . RE_IDENTIFIER . '$#')` */
  predicate MatchesIdentifier(s: string) {
    IsIdentifier(DropFinalNewline(s))
  }

  /** `Strings::match($s, '#^\$?' . RE_IDENTIFIER . '$#')` */
  predicate MatchesVariableOrIdentifier(s: string) {
    var t := DropFinalNewline(s);
    IsIdentifier(t) || (|t| > 0 && t[0] == '$' && IsIdentifier(t[1..]))
  }

  /** `Strings::match($s, '#^(' . RE_IDENTIFIER . '|)$#')` */
  predicate MatchesIdentifierOrEmpty(s: string) {
    var t := DropFinalNewline(s);
    t == "" || IsIdentifier(t)
  }

  /** `ucfirst($s)` in the C locale. */
  function UcFirst(s: string): (r: string)
    ensures |r| == |s| && (|s| > 0 ==> r[1..] == s[1..])
    ensures |s| > 0 && 'a' <= s[0] <= 'z' ==> 'A' <= r[0] <= 'Z' && r[0] as int == s[0] as int - ('a' as int - 'A' as int)
    ensures |s| > 0 && !('a' <= s[0] <= 'z') ==> r == s
  {
    if |s| > 0 && 'a' <= s[0] <= 'z' then [(s[0] as int - 32) as char] + s[1..] else s
  }

  /** `explode($sep, $s, 2)`: the part before the first `sep`, and the rest after it if there is one. */
  function SplitFirst(s: string, sep: char): (r: (string, Option<string>))
    ensures sep !in r.0
    ensures r.1.None? ==> r.0 == s
    ensures r.1.Some? ==> s == r.0 + [sep] + r.1.value
  {
    match StrPos(s, [sep])
    case None =>
      assert forall j :: 0 <= j < |s| ==> !OccursAt(s, [sep], j);
      assert forall j :: 0 <= j < |s| ==> s[j] != sep by {
        forall j | 0 <= j < |s| ensures s[j] != sep {
          assert !OccursAt(s, [sep], j);
          assert s[j..j + 1] == [s[j]];
        }
      }
      (s, None)
    case Some(i) =>
      assert forall j :: 0 <= j < i ==> s[j] != sep by {
        forall j | 0 <= j < i ensures s[j] != sep {
          assert !OccursAt(s, [sep], j);
          assert s[j..j + 1] == [s[j]];
        }
      }
      assert s[i..i + 1] == [sep];
      assert s == s[..i] + [sep] + s[i + 1..];
      (s[..i], Some(s[i + 1..]))
  }
}
