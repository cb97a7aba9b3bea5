/** The few JavaScript string operations the screens rely on, over `seq<char>`. */
module JsStrings {

  /** `s.endsWith(suffix)`: an exact, case-sensitive match of the last `|suffix|` characters. */
  predicate EndsWith(s: string, suffix: string) {
    |suffix| <= |s| && s[|s| - |suffix|..] == suffix
  }

  /** `s.split(sep)` for a one-character separator: the pieces between separators,
      empty pieces included; there is always at least one piece. */
  function Split(s: string, sep: char): (r: seq<string>)
    ensures |r| >= 1
    ensures forall k :: 0 <= k < |r| ==> sep !in r[k]
    decreases |s|
  {
    if s == "" then [""]
    else
      var rest := Split(s[1..], sep);
      if s[0] == sep then [""] + rest
      else [[s[0]] + rest[0]] + rest[1..]
  }

  /** `parts.join(sep)` for a one-character separator. */
  function Join(parts: seq<string>, sep: char): string
    decreases |parts|
  {
    if |parts| == 0 then ""
    else if |parts| == 1 then parts[0]
    else parts[0] + [sep] + Join(parts[1..], sep)
  }

  /** Joining the pieces of a split with the same separator gives back the string. */
  lemma {:induction false} JoinSplit(s: string, sep: char)
    ensures Join(Split(s, sep), sep) == s
    decreases |s|
  {
    if s != "" {
      var rest := Split(s[1..], sep);
      JoinSplit(s[1..], sep);
      if s[0] == sep {
        assert ([""] + rest)[1..] == rest;
      } else {
        var parts := [[s[0]] + rest[0]] + rest[1..];
        if |rest| > 1 {
          assert parts[1..] == rest[1..];
          assert Join(rest, sep) == rest[0] + [sep] + Join(rest[1..], sep);
        }
      }
    }
  }

  /** A split into more than one piece happens only when the separator occurs. */
  lemma SeveralPiecesHaveSeparator(s: string, sep: char)
    requires |Split(s, sep)| > 1
    ensures sep in s
  {
  }

  /** `s.split(sep).pop()`: the last piece of the split. */
  function LastSegment(s: string, sep: char): (r: string)
    ensures sep !in r
  {
    var parts := Split(s, sep);
    parts[|parts| - 1]
  }

  /** The last piece is the tail of `s` after its last separator, or all of `s` when it has none. */
  lemma {:induction false} LastSegmentIsTail(s: string, sep: char)
    ensures var seg := LastSegment(s, sep);
      |seg| <= |s| && seg == s[|s| - |seg|..] && sep !in seg &&
      (|seg| < |s| ==> s[|s| - |seg| - 1] == sep)
    decreases |s|
  {
    if s != "" {
      var t := s[1..];
      var rest := Split(t, sep);
      var segT := LastSegment(t, sep);
      LastSegmentIsTail(t, sep);
      assert t[|t| - |segT|..] == s[|s| - |segT|..];
      if s[0] != sep {
        if |rest| == 1 {
          JoinSplit(t, sep);
          assert LastSegment(s, sep) == s;
        } else {
          SeveralPiecesHaveSeparator(t, sep);
          assert LastSegment(s, sep) == segT;
          assert |segT| < |t|;
        }
      } else {
        assert LastSegment(s, sep) == segT;
      }
    }
  }

  /** The decimal digit character for `d`. */
  function DigitChar(d: nat): char
    requires d < 10
  {
    "0123456789"[d]
  }

  /** `String(n)` for a non-negative integer: its decimal digits, most significant first. */
  function NatToString(n: nat): (r: string)
    ensures |r| >= 1
    ensures forall k :: 0 <= k < |r| ==> '0' <= r[k] <= '9'
  {
    if n < 10 then [DigitChar(n)] else NatToString(n / 10) + [DigitChar(n % 10)]
  }

  /** The value of a string of decimal digits. */
  function DecimalValue(digits: string): nat
    requires forall k :: 0 <= k < |digits| ==> '0' <= digits[k] <= '9'
    decreases |digits|
  {
    if digits == [] then 0
    else DecimalValue(digits[..|digits| - 1]) * 10 + (digits[|digits| - 1] as int - '0' as int)
  }

  /** Reading back the printed number gives the number. */
  lemma {:induction false} DecimalValueOfNatToString(n: nat)
    ensures DecimalValue(NatToString(n)) == n
  {
    var r := NatToString(n);
    if n >= 10 {
      DecimalValueOfNatToString(n / 10);
      assert r[..|r| - 1] == NatToString(n / 10);
    }
  }

  /** Different numbers print differently. */
  lemma NatToStringInjective(m: nat, n: nat)
    requires NatToString(m) == NatToString(n)
    ensures m == n
  {
    DecimalValueOfNatToString(m);
    DecimalValueOfNatToString(n);
  }

  /** Prefixing a fixed string keeps different numbers apart. */
  lemma PrefixedNumbersDiffer(prefix: string, m: nat, n: nat)
    requires m != n
    ensures prefix + NatToString(m) != prefix + NatToString(n)
  {
    if prefix + NatToString(m) == prefix + NatToString(n) {
      assert NatToString(m) == (prefix + NatToString(m))[|prefix|..];
      assert NatToString(n) == (prefix + NatToString(n))[|prefix|..];
      NatToStringInjective(m, n);
    }
  }
}
