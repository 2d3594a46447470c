/** The string operations the pointer and frame codecs use, as Python defines them. */
module Text {
  import opened Options

  /** s.replace(c, r) for a one-character pattern. */
  function ReplaceChar(s: string, c: char, r: string): string {
    if s == [] then [] else (if s[0] == c then r else [s[0]]) + ReplaceChar(s[1..], c, r)
  }

  /** s.replace(ab, r) for the two-character pattern ab: leftmost, non-overlapping. */
  function ReplacePair(s: string, a: char, b: char, r: string): string {
    if |s| < 2 then s
    else if s[0] == a && s[1] == b then r + ReplacePair(s[2..], a, b, r)
    else [s[0]] + ReplacePair(s[1..], a, b, r)
  }

  /** s.split(sep): never empty. */
  function Split(s: string, sep: char): (parts: seq<string>)
    ensures |parts| > 0
  {
    if s == [] then [[]]
    else
      var rest := Split(s[1..], sep);
      if s[0] == sep then [[]] + rest else [[s[0]] + rest[0]] + rest[1..]
  }

  /** sep.join(parts). */
  function Join(parts: seq<string>, sep: char): string {
    if parts == [] then []
    else if |parts| == 1 then parts[0]
    else parts[0] + [sep] + Join(parts[1..], sep)
  }

  lemma {:induction false} SplitPart(part: string, sep: char, tail: string)
    requires sep !in part
    ensures Split(part, sep) == [part]
    ensures Split(part + [sep] + tail, sep) == [part] + Split(tail, sep)
  {
    var whole := part + [sep] + tail;
    if part == [] {
      assert whole[1..] == tail && whole[0] == sep;
      assert Split(whole, sep) == [[]] + Split(tail, sep);
      assert [part] == [[]];
    } else {
      SplitPart(part[1..], sep, tail);
      var rest := part[1..] + [sep] + tail;
      assert whole[1..] == rest && whole[0] == part[0];
      assert Split(rest, sep)[0] == part[1..] && Split(rest, sep)[1..] == Split(tail, sep);
      assert part == [part[0]] + part[1..];
    }
  }

  lemma {:induction false} SplitJoin(parts: seq<string>, sep: char)
    requires parts != [] && forall i | 0 <= i < |parts| :: sep !in parts[i]
    ensures Split(Join(parts, sep), sep) == parts
  {
    if |parts| == 1 {
      SplitPart(parts[0], sep, []);
    } else {
      SplitJoin(parts[1..], sep);
      SplitPart(parts[0], sep, Join(parts[1..], sep));
    }
  }

  lemma {:induction false} JoinSplit(s: string, sep: char)
    ensures Join(Split(s, sep), sep) == s
    ensures forall i | 0 <= i < |Split(s, sep)| :: sep !in Split(s, sep)[i]
  {
    if s != [] {
      JoinSplit(s[1..], sep);
      var rest := Split(s[1..], sep);
      if s[0] == sep {
        assert ([[]] + rest)[1..] == rest;
      } else {
        var parts := [[s[0]] + rest[0]] + rest[1..];
        assert parts[1..] == rest[1..];
      }
    }
  }

  // ------------------------------------------------------------------- decimals

  predicate IsDigit(c: char) {
    '0' <= c <= '9'
  }

  function DigitChar(d: nat): (c: char)
    requires d < 10
    ensures IsDigit(c)
  {
    ("0123456789")[d]
  }

  function DigitValue(c: char): nat
    requires IsDigit(c)
  {
    (c as int) - ('0' as int)
  }

  /** str(n). */
  function Decimal(n: nat): (s: string)
    ensures |s| > 0 && forall i | 0 <= i < |s| :: IsDigit(s[i])
  {
    if n < 10 then [DigitChar(n)] else Decimal(n / 10) + [DigitChar(n % 10)]
  }

  predicate AllDigits(s: string) {
    s != [] && forall i | 0 <= i < |s| :: IsDigit(s[i])
  }

  /** The value of a plain digit string. */
  function DecimalValue(s: string): nat
    requires forall i | 0 <= i < |s| :: IsDigit(s[i])
  {
    if s == [] then 0 else DecimalValue(s[..|s| - 1]) * 10 + DigitValue(s[|s| - 1])
  }

  lemma DigitRoundTrip(d: nat)
    requires d < 10
    ensures DigitValue(DigitChar(d)) == d
  {
  }

  lemma {:induction false} DecimalRoundTrip(n: nat)
    ensures AllDigits(Decimal(n)) && DecimalValue(Decimal(n)) == n
  {
    if n < 10 {
      DigitRoundTrip(n);
      assert Decimal(n)[..0] == [];
    } else {
      DecimalRoundTrip(n / 10);
      DigitRoundTrip(n % 10);
      assert Decimal(n)[..|Decimal(n)| - 1] == Decimal(n / 10);
    }
  }

  // ------------------------------------------------------------ integer literals

  function Concat(parts: seq<string>): string {
    if parts == [] then [] else parts[0] + Concat(parts[1..])
  }

  /** The digits of an integer literal: groups joined by single underscores. */
  function ReadDigits(s: string): Option<nat> {
    var groups := Split(s, '_');
    if (forall i | 0 <= i < |groups| :: AllDigits(groups[i])) && AllDigits(Concat(groups)) then
      Some(DecimalValue(Concat(groups)))
    else None
  }

  /** int(s) for a word: an optional sign before the digits. */
  function ReadInt(s: string): Option<int> {
    if s != [] && (s[0] == '-' || s[0] == '+') then
      var magnitude := ReadDigits(s[1..]);
      if magnitude.None? then None
      else
        var value: int := magnitude.value;
        Some(if s[0] == '-' then -value else value)
    else
      var magnitude := ReadDigits(s);
      if magnitude.None? then None else Some(magnitude.value)
  }

  lemma ReadDecimal(n: nat)
    ensures ReadInt(Decimal(n)) == Some(n)
  {
    hide Decimal;
    var d := Decimal(n);
    DecimalRoundTrip(n);
    SplitPart(d, '_', []);
    assert Concat([d]) == d by { assert [d][1..] == [] && d + [] == d; }
  }
}
