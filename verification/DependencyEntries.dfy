/** One item of an R dependency field: a package name and an optional version
    requirement in parentheses
    (src/envresearch/econometrics/frozen_r_library.py lines 235-246). */
module DependencyEntries {

  /** How one comma-separated item reads. */
  datatype Entry = Blank | Package(name: string) | Malformed

  /** What str.isspace and the pattern's whitespace class accept. */
  predicate IsSpace(c: char) {
    || '\t' <= c <= '\r' || '\U{1c}' <= c <= ' ' || c in {'\U{85}', '\U{a0}', '\U{1680}'}
    || '\U{2000}' <= c <= '\U{200a}' || c in {'\U{2028}', '\U{2029}', '\U{202f}', '\U{205f}', '\U{3000}'}
  }

  predicate IsLetter(c: char) {
    'A' <= c <= 'Z' || 'a' <= c <= 'z'
  }

  predicate IsNameChar(c: char) {
    IsLetter(c) || '0' <= c <= '9' || c == '.'
  }

  predicate IsName(s: string) {
    s != "" && IsLetter(s[0]) && forall c | c in s :: IsNameChar(c)
  }

  predicate IsBlank(s: string) {
    forall c | c in s :: IsSpace(c)
  }

  // ------------------------------------------------------------- the pattern, as text

  /** A version requirement: nothing, or text without a closing parenthesis in parentheses. */
  predicate IsRequirement(p: string) {
    p == "" || (|p| >= 2 && p[0] == '(' && p[|p| - 1] == ')' && ')' !in p[..|p| - 1])
  }

  /** The item is the name and an optional requirement, with any spaces around both. */
  ghost predicate AsksFor(item: string, name: string) {
    IsName(name) && exists a, b, p, c :: Spells(item, name, a, b, p, c)
  }

  ghost predicate Spells(item: string, name: string, a: string, b: string, p: string, c: string) {
    IsBlank(a) && IsBlank(b) && IsRequirement(p) && IsBlank(c) && item == a + name + b + p + c
  }

  // -------------------------------------------------------------------- the scanner

  /** The length of the longest prefix whose characters all pass. */
  function Span(s: string, pass: char -> bool): (n: nat)
    ensures n <= |s| && (forall i | 0 <= i < n :: pass(s[i])) && (n < |s| ==> !pass(s[n]))
  {
    if s == "" || !pass(s[0]) then 0
    else
      var n := Span(s[1..], pass);
      assert forall i | 0 < i < n + 1 :: s[i] == s[1..][i - 1];
      n + 1
  }

  function AfterSpace(s: string): string {
    s[Span(s, IsSpace)..]
  }

  /** The rest after an optional requirement, when it is well formed. */
  predicate EndsWell(rest: string) {
    if rest == "" || rest[0] != '(' then IsBlank(rest)
    else
      var n := Span(rest, c => c != ')');
      n < |rest| && IsBlank(rest[n + 1..])
  }

  function ReadEntry(item: string): Entry {
    var text := AfterSpace(item);
    var n := Span(text, IsNameChar);
    if text == "" then Blank
    else if n == 0 || !IsLetter(text[0]) || !EndsWell(AfterSpace(text[n..])) then Malformed
    else Package(text[..n])
  }

  // ------------------------------------------------------------------ they agree

  /** A prefix that passes, followed by something that does not, is the longest. */
  lemma SpanIs(s: string, t: string, pass: char -> bool)
    requires forall c | c in s :: pass(c)
    requires t != "" ==> !pass(t[0])
    ensures Span(s + t, pass) == |s|
  {
    assert forall i | 0 <= i < |s| :: (s + t)[i] == s[i] && s[i] in s;
    assert t != "" ==> (s + t)[|s|] == t[0];
  }

  lemma Disjoint(c: char)
    ensures IsNameChar(c) ==> !IsSpace(c) && c != '(' && c != ')'
    ensures IsSpace(c) ==> c != '(' && c != ')'
  {
  }

  lemma {:induction false} BlankAfterSpace(s: string)
    ensures AfterSpace(s) == "" <==> IsBlank(s)
    ensures IsBlank(s[..Span(s, IsSpace)]) && s == s[..Span(s, IsSpace)] + AfterSpace(s)
  {
    var n := Span(s, IsSpace);
    if n < |s| {
      assert s[n] in s;
    }
  }

  /** Spaces, then text that does not begin with one. */
  lemma SkipsSpace(a: string, text: string)
    requires IsBlank(a) && (text != "" ==> !IsSpace(text[0]))
    ensures AfterSpace(a + text) == text
  {
    SpanIs(a, text, IsSpace);
  }

  /** A requirement and spaces are what ends an item well. */
  lemma RequirementEndsWell(p: string, c: string)
    requires IsRequirement(p) && IsBlank(c)
    ensures EndsWell(AfterSpace(p + c))
  {
    if p == "" {
      assert p + c == c;
      BlankAfterSpace(c);
    } else {
      Disjoint('(');
      assert (p + c)[0] == '(';
      SkipsSpace("", p + c);
      assert "" + (p + c) == p + c;
      var inner, closing := p[..|p| - 1], [')'] + c;
      assert p + c == inner + closing;
      SpanIs(inner, closing, x => x != ')');
      assert (p + c)[|inner| + 1..] == c;
    }
  }

  lemma EndsWellIsRequirement(rest: string) returns (p: string, c: string)
    requires EndsWell(rest)
    ensures IsRequirement(p) && IsBlank(c) && rest == p + c
  {
    if rest == "" || rest[0] != '(' {
      p, c := "", rest;
    } else {
      var n := Span(rest, x => x != ')');
      p, c := rest[..n + 1], rest[n + 1..];
      assert p[..|p| - 1] == rest[..n];
    }
  }

  lemma SpelledReads(item: string, name: string, a: string, b: string, p: string, c: string)
    requires IsName(name) && Spells(item, name, a, b, p, c)
    ensures ReadEntry(item) == Package(name)
  {
    hide IsSpace, IsNameChar, IsLetter, EndsWell;
    var after := b + p + c;
    var text := name + after;
    assert item == a + text;
    assert name[0] in name;
    Disjoint(name[0]);
    SkipsSpace(a, text);
    if after != "" {
      FirstAfterName(b, p, c);
    }
    SpanIs(name, after, IsNameChar);
    assert text[|name|..] == after && text[..|name|] == name;
    AfterSpaces(b, p, c);
    RequirementEndsWell(p, c);
  }

  lemma FirstAfterName(b: string, p: string, c: string)
    requires IsBlank(b) && IsRequirement(p) && IsBlank(c) && b + p + c != ""
    ensures !IsNameChar((b + p + c)[0])
  {
    var after := b + p + c;
    Disjoint(after[0]);
    if b != "" {
      assert after[0] == b[0] && b[0] in b;
    } else if p != "" {
      assert after[0] == p[0];
    } else {
      assert after[0] == c[0] && c[0] in c;
    }
  }

  /** Spaces before a requirement are skipped whether or not there is one. */
  lemma AfterSpaces(b: string, p: string, c: string)
    requires IsBlank(b) && IsRequirement(p) && IsBlank(c)
    ensures AfterSpace(b + p + c) == AfterSpace(p + c)
  {
    if p == "" {
      assert b + p + c == b + c && p + c == c;
      BlankAfterSpace(b + c);
      BlankAfterSpace(c);
    } else {
      Disjoint('(');
      assert b + p + c == b + (p + c) && (p + c)[0] == '(';
      SkipsSpace(b, p + c);
      SkipsSpace("", p + c);
      assert "" + (p + c) == p + c;
    }
  }

  lemma ReadIsSpelled(item: string)
    requires ReadEntry(item).Package?
    ensures AsksFor(item, ReadEntry(item).name)
  {
    hide IsSpace, IsNameChar, IsLetter, IsName, EndsWell, IsRequirement, IsBlank, Span, ReadEntry;
    var text := AfterSpace(item);
    var n := Span(text, IsNameChar);
    var name, tail := text[..n], text[n..];
    ReadHasName(item);
    var a, b := item[..Span(item, IsSpace)], tail[..Span(tail, IsSpace)];
    BlankAfterSpace(item);
    BlankAfterSpace(tail);
    hide AfterSpace;
    var p, c := EndsWellIsRequirement(AfterSpace(tail));
    CutAt(text, n);
    Regrouped(item, text, tail, AfterSpace(tail), a, name, b, p, c);
  }

  lemma CutAt(s: string, n: nat)
    requires n <= |s|
    ensures s == s[..n] + s[n..]
  {
  }

  lemma ReadHasName(item: string)
    requires ReadEntry(item).Package?
    ensures var text := AfterSpace(item);
            var n := Span(text, IsNameChar);
            ReadEntry(item) == Package(text[..n]) && IsName(text[..n]) && EndsWell(AfterSpace(text[n..]))
  {
    hide IsSpace, IsNameChar, IsLetter, EndsWell, AfterSpace;
  }

  lemma Regrouped(item: string, text: string, tail: string, rest: string,
                  a: string, name: string, b: string, p: string, c: string)
    requires item == a + text && text == name + tail && tail == b + rest && rest == p + c
    requires IsName(name) && IsBlank(a) && IsBlank(b) && IsRequirement(p) && IsBlank(c)
    ensures AsksFor(item, name)
  {
    hide IsName, IsBlank, IsRequirement;
    assert item == a + name + b + p + c;
    assert Spells(item, name, a, b, p, c);
  }

  /** The scanner reads exactly what the pattern describes. */
  lemma ReadEntryExactly(item: string)
    ensures ReadEntry(item).Blank? <==> IsBlank(item)
    ensures forall name :: ReadEntry(item) == Package(name) <==> AsksFor(item, name)
    ensures ReadEntry(item).Malformed? <==> !IsBlank(item) && forall name :: !AsksFor(item, name)
  {
    hide ReadEntry, Spells;
    BlankIs(item);
    forall name ensures ReadEntry(item) == Package(name) <==> AsksFor(item, name) {
      if AsksFor(item, name) {
        var a, b, p, c :| Spells(item, name, a, b, p, c);
        SpelledReads(item, name, a, b, p, c);
      }
      if ReadEntry(item) == Package(name) {
        ReadIsSpelled(item);
      }
    }
    if ReadEntry(item).Package? {
      assert AsksFor(item, ReadEntry(item).name);
    }
  }

  lemma BlankIs(item: string)
    ensures ReadEntry(item).Blank? <==> IsBlank(item)
  {
    BlankAfterSpace(item);
  }
}
