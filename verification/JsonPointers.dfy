/** JSON pointers and the string leaves of a payload
    (src/envresearch/benchmarks/claim_integrity.py lines 322-356,
    claim_report.py lines 252-273, econometrics/exit_evaluator.py lines 304-311;
    sections 3 and 4 of RFC 6901). */
module JsonPointers {
  import opened Options
  import opened Ordering
  import opened Text

  datatype Json =
    | JNull
    | JBool(b: bool)
    | JNumber(r: real)
    | JString(s: string)
    | JArray(items: seq<Json>)
    | JObject(fields: map<string, Json>)

  // -------------------------------------------------------------------- pointers

  function Escape(segment: string): string {
    ReplaceChar(ReplaceChar(segment, '~', "~0"), '/', "~1")
  }

  function Unescape(token: string): string {
    ReplacePair(ReplacePair(token, '~', '1', "/"), '~', '0', "~")
  }

  function Pointer(segments: seq<string>): string {
    if segments == [] then [] else "/" + Join(Map(Escape, segments), '/')
  }

  function PointerSegments(pointer: string): seq<string> {
    if pointer == [] then [] else Map(Unescape, Split(pointer[1..], '/'))
  }

  function EscapedChar(c: char): string {
    if c == '~' then "~0" else if c == '/' then "~1" else [c]
  }

  lemma EscapeCons(c: char, s: string)
    ensures Escape([c] + s) == EscapedChar(c) + Escape(s)
  {
    var t := ReplaceChar(s, '~', "~0");
    assert ([c] + s)[1..] == s;
    if c == '~' {
      assert "~0" + t == ['~'] + (['0'] + t);
      assert (['~'] + (['0'] + t))[1..] == ['0'] + t && (['0'] + t)[1..] == t;
      assert ReplaceChar(['0'] + t, '/', "~1") == ['0'] + ReplaceChar(t, '/', "~1");
      assert ReplaceChar("~0" + t, '/', "~1") == ['~'] + (['0'] + ReplaceChar(t, '/', "~1"));
    } else {
      assert ([c] + t)[1..] == t;
    }
  }

  /** Undoing ~1 leaves exactly the tilde escapes. */
  lemma {:induction false} UndoSlashes(s: string)
    ensures ReplacePair(Escape(s), '~', '1', "/") == ReplaceChar(s, '~', "~0")
  {
    if s != [] {
      UndoSlashes(s[1..]);
      EscapeCons(s[0], s[1..]);
      assert s == [s[0]] + s[1..];
      var rest := Escape(s[1..]);
      if s[0] == '~' {
        assert ("~0" + rest)[1..] == ['0'] + rest && (['0'] + rest)[1..] == rest;
        assert ReplacePair(['0'] + rest, '~', '1', "/") == ['0'] + ReplacePair(rest, '~', '1', "/");
      } else if s[0] == '/' {
        assert ("~1" + rest)[2..] == rest;
      } else {
        assert ([s[0]] + rest)[1..] == rest;
      }
    }
  }

  lemma {:induction false} UndoTildes(s: string)
    ensures ReplacePair(ReplaceChar(s, '~', "~0"), '~', '0', "~") == s
  {
    if s != [] {
      UndoTildes(s[1..]);
      var rest := ReplaceChar(s[1..], '~', "~0");
      assert s == [s[0]] + s[1..];
      if s[0] == '~' {
        assert ("~0" + rest)[2..] == rest;
      } else {
        assert ([s[0]] + rest)[1..] == rest;
      }
    }
  }

  lemma UnescapeEscape(s: string)
    ensures Unescape(Escape(s)) == s
  {
    UndoSlashes(s);
    UndoTildes(s);
  }

  /** A token in which every tilde is followed by 0 or 1, and no slash occurs. */
  predicate CanonicalToken(t: string) {
    if t == [] then true
    else if t[0] == '~' then |t| >= 2 && t[1] in {'0', '1'} && CanonicalToken(t[2..])
    else t[0] != '/' && CanonicalToken(t[1..])
  }

  lemma {:induction false} EscapeCanonical(s: string)
    ensures CanonicalToken(Escape(s))
  {
    if s != [] {
      EscapeCanonical(s[1..]);
      EscapeCons(s[0], s[1..]);
      assert s == [s[0]] + s[1..];
      var rest := Escape(s[1..]);
      assert ("~0" + rest)[2..] == rest && ("~1" + rest)[2..] == rest && ([s[0]] + rest)[1..] == rest;
    }
  }

  lemma {:induction false} CanonicalHasNoSlash(t: string)
    requires CanonicalToken(t)
    ensures '/' !in t
  {
    if t != [] {
      if t[0] == '~' {
        CanonicalHasNoSlash(t[2..]);
        assert t == [t[0], t[1]] + t[2..];
      } else {
        CanonicalHasNoSlash(t[1..]);
        assert t == [t[0]] + t[1..];
      }
    }
  }

  /** The first pass over a canonical token keeps its tilde escapes apart. */
  lemma {:induction false} UnescapeCons(t: string)
    requires CanonicalToken(t) && t != []
    ensures t[0] == '~' && t[1] == '0' ==> Unescape(t) == ['~'] + Unescape(t[2..])
    ensures t[0] == '~' && t[1] == '1' ==> Unescape(t) == ['/'] + Unescape(t[2..])
    ensures t[0] != '~' ==> Unescape(t) == [t[0]] + Unescape(t[1..])
  {
    if t[0] == '~' {
      var rest := ReplacePair(t[2..], '~', '1', "/");
      if t[1] == '0' {
        assert t[1..] == ['0'] + t[2..] && (['0'] + t[2..])[1..] == t[2..];
        assert ReplacePair(t[1..], '~', '1', "/") == ['0'] + rest;
        assert ReplacePair(t, '~', '1', "/") == ['~'] + (['0'] + rest);
        assert (['~'] + (['0'] + rest))[2..] == rest;
      } else {
        assert ReplacePair(t, '~', '1', "/") == ['/'] + rest;
        assert (['/'] + rest)[1..] == rest;
      }
    } else {
      var rest := ReplacePair(t[1..], '~', '1', "/");
      assert ReplacePair(t, '~', '1', "/") == [t[0]] + rest by {
        if |t| == 1 {
          assert t == [t[0]] + t[1..];
        }
      }
      assert ([t[0]] + rest)[1..] == rest;
    }
  }

  lemma {:induction false} EscapeUnescape(t: string)
    requires CanonicalToken(t)
    ensures Escape(Unescape(t)) == t
  {
    if t != [] {
      UnescapeCons(t);
      if t[0] == '~' {
        EscapeUnescape(t[2..]);
        EscapeCons(if t[1] == '0' then '~' else '/', Unescape(t[2..]));
        assert t == [t[0], t[1]] + t[2..];
      } else {
        EscapeUnescape(t[1..]);
        EscapeCons(t[0], Unescape(t[1..]));
        assert t == [t[0]] + t[1..];
      }
    }
  }

  /** Parsing inverts printing, for every tuple of segments. */
  lemma ParsePrint(segments: seq<string>)
    ensures PointerSegments(Pointer(segments)) == segments
  {
    if segments != [] {
      var tokens := Map(Escape, segments);
      forall i | 0 <= i < |tokens| ensures '/' !in tokens[i] {
        EscapeCanonical(segments[i]);
        CanonicalHasNoSlash(tokens[i]);
      }
      SplitJoin(tokens, '/');
      assert Pointer(segments)[1..] == Join(tokens, '/');
      forall i | 0 <= i < |segments| ensures Map(Unescape, tokens)[i] == segments[i] {
        UnescapeEscape(segments[i]);
      }
    }
  }

  /** The grammar that claim usages must match: ^(?:/(?:[^~/]|~[01])*)*$. */
  predicate CanonicalPointer(p: string) {
    p == [] || (p[0] == '/' && forall t | t in Split(p[1..], '/') :: CanonicalToken(t))
  }

  /** Printing inverts parsing on that grammar, and prints only into it. */
  lemma PrintParse(p: string)
    requires CanonicalPointer(p)
    ensures Pointer(PointerSegments(p)) == p
  {
    if p != [] {
      var tokens := Split(p[1..], '/');
      forall i | 0 <= i < |tokens| ensures Map(Escape, Map(Unescape, tokens))[i] == tokens[i] {
        EscapeUnescape(tokens[i]);
      }
      assert Map(Escape, Map(Unescape, tokens)) == tokens;
      JoinSplit(p[1..], '/');
    }
  }

  lemma PrintCanonical(segments: seq<string>)
    ensures CanonicalPointer(Pointer(segments))
  {
    if segments != [] {
      var tokens := Map(Escape, segments);
      forall i | 0 <= i < |tokens| ensures CanonicalToken(tokens[i]) && '/' !in tokens[i] {
        EscapeCanonical(segments[i]);
        CanonicalHasNoSlash(tokens[i]);
      }
      SplitJoin(tokens, '/');
      assert Pointer(segments)[1..] == Join(tokens, '/');
    }
  }

  /** Distinct tuples print to distinct pointers. */
  lemma PointerInjective(a: seq<string>, b: seq<string>)
    requires Pointer(a) == Pointer(b)
    ensures a == b
  {
    ParsePrint(a);
    ParsePrint(b);
  }

  // ---------------------------------------------------------------------- leaves

  datatype Leaf = Leaf(path: seq<string>, text: string)

  /** The string leaves below a value at the given path, in the source's order:
      fields by sorted key, items by index. */
  function Leaves(v: Json, path: seq<string>): seq<Leaf>
    decreases v, 1, 0
  {
    match v
    case JString(s) => [Leaf(path, s)]
    case JObject(fields) => FieldLeaves(v, SortedKeys(fields.Keys), path)
    case JArray(items) => ItemLeaves(v, 0, path)
    case _ => []
  }

  function FieldLeaves(v: Json, keys: seq<string>, path: seq<string>): seq<Leaf>
    requires v.JObject? && forall k | k in keys :: k in v.fields
    decreases v, 0, |keys|
  {
    if keys == [] then [] else Leaves(v.fields[keys[0]], path + [keys[0]]) + FieldLeaves(v, keys[1..], path)
  }

  function ItemLeaves(v: Json, from: nat, path: seq<string>): seq<Leaf>
    requires v.JArray? && from <= |v.items|
    decreases v, 0, |v.items| - from
  {
    if from == |v.items| then [] else Leaves(v.items[from], path + [Decimal(from)]) + ItemLeaves(v, from + 1, path)
  }

  /** The text found by following the segments, written without Leaves. */
  ghost predicate Reaches(v: Json, segments: seq<string>, text: string)
    decreases v
  {
    match v
    case JString(s) => segments == [] && text == s
    case JObject(fields) => segments != [] && segments[0] in fields && Reaches(fields[segments[0]], segments[1..], text)
    case JArray(items) => segments != [] && exists i | 0 <= i < |items| ::
      segments[0] == Decimal(i) && Reaches(items[i], segments[1..], text)
    case _ => false
  }

  lemma PathStep(path: seq<string>, step: string, full: seq<string>)
    requires path + [step] <= full
    ensures path <= full && full[|path|] == step && full[|path|..] == [step] + full[|path| + 1..]
  {
    assert full[..|path| + 1] == path + [step];
    assert full[..|path|] == path;
  }

  /** Every leaf lies below the path and is reached by the rest of its segments. */
  lemma {:induction false} LeafReached(v: Json, path: seq<string>, leaf: Leaf)
    requires leaf in Leaves(v, path)
    ensures path <= leaf.path && Reaches(v, leaf.path[|path|..], leaf.text)
    decreases v, 1, 0
  {
    match v
    case JString(s) =>
    case JObject(fields) => FieldLeafReached(v, SortedKeys(fields.Keys), path, leaf);
    case JArray(items) => ItemLeafReached(v, 0, path, leaf);
    case _ =>
  }

  lemma {:induction false} FieldLeafReached(v: Json, keys: seq<string>, path: seq<string>, leaf: Leaf)
    requires v.JObject? && (forall k | k in keys :: k in v.fields) && leaf in FieldLeaves(v, keys, path)
    ensures path <= leaf.path && Reaches(v, leaf.path[|path|..], leaf.text)
    ensures |leaf.path| > |path| && leaf.path[|path|] in keys
    decreases v, 0, |keys|
  {
    var first := Leaves(v.fields[keys[0]], path + [keys[0]]);
    if leaf in first {
      LeafReached(v.fields[keys[0]], path + [keys[0]], leaf);
      PathStep(path, keys[0], leaf.path);
    } else {
      FieldLeafReached(v, keys[1..], path, leaf);
    }
  }

  lemma {:induction false} ItemLeafReached(v: Json, from: nat, path: seq<string>, leaf: Leaf)
    requires v.JArray? && from <= |v.items| && leaf in ItemLeaves(v, from, path)
    ensures path <= leaf.path && Reaches(v, leaf.path[|path|..], leaf.text)
    ensures |leaf.path| > |path| && exists i | from <= i < |v.items| :: leaf.path[|path|] == Decimal(i)
    decreases v, 0, |v.items| - from
  {
    var first := Leaves(v.items[from], path + [Decimal(from)]);
    if leaf in first {
      LeafReached(v.items[from], path + [Decimal(from)], leaf);
      PathStep(path, Decimal(from), leaf.path);
    } else {
      ItemLeafReached(v, from + 1, path, leaf);
    }
  }

  /** Conversely, whatever can be reached is listed. */
  lemma {:induction false} ReachedListed(v: Json, path: seq<string>, segments: seq<string>, text: string)
    requires Reaches(v, segments, text)
    ensures Leaf(path + segments, text) in Leaves(v, path)
    decreases v
  {
    hide Decimal, Below, SortedKeys, FieldLeaves, ItemLeaves;
    match v
    case JString(s) =>
      assert path + segments == path;
    case JObject(fields) =>
      var k := segments[0];
      ReachedListed(fields[k], path + [k], segments[1..], text);
      assert path + [k] + segments[1..] == path + segments;
      FieldListed(v, SortedKeys(fields.Keys), KeyIndex(fields.Keys, k), path, Leaf(path + segments, text));
    case JArray(items) =>
      var i :| 0 <= i < |items| && segments[0] == Decimal(i) && Reaches(items[i], segments[1..], text);
      ReachedListed(items[i], path + [Decimal(i)], segments[1..], text);
      assert path + [Decimal(i)] + segments[1..] == path + segments;
      ItemListed(v, 0, i, path, Leaf(path + segments, text));
    case _ =>
  }

  ghost function KeyIndex(s: set<string>, k: string): (i: nat)
    requires k in s
    ensures i < |SortedKeys(s)| && SortedKeys(s)[i] == k
  {
    assert k in SortedKeys(s);
    var i :| 0 <= i < |SortedKeys(s)| && SortedKeys(s)[i] == k;
    i
  }

  lemma {:induction false} FieldListed(v: Json, keys: seq<string>, i: nat, path: seq<string>, leaf: Leaf)
    requires v.JObject? && (forall k | k in keys :: k in v.fields) && i < |keys|
    requires leaf in Leaves(v.fields[keys[i]], path + [keys[i]])
    ensures leaf in FieldLeaves(v, keys, path)
    decreases |keys|
  {
    if i > 0 {
      FieldListed(v, keys[1..], i - 1, path, leaf);
    }
  }

  lemma {:induction false} ItemListed(v: Json, from: nat, i: nat, path: seq<string>, leaf: Leaf)
    requires v.JArray? && from <= i < |v.items|
    requires leaf in Leaves(v.items[i], path + [Decimal(i)])
    ensures leaf in ItemLeaves(v, from, path)
    decreases |v.items| - from
  {
    if from < i {
      ItemListed(v, from + 1, i, path, leaf);
    }
  }

  ghost predicate DistinctPaths(leaves: seq<Leaf>) {
    forall i, j | 0 <= i < j < |leaves| :: leaves[i].path != leaves[j].path
  }

  lemma DistinctConcat(a: seq<Leaf>, b: seq<Leaf>)
    requires DistinctPaths(a) && DistinctPaths(b)
    requires forall x, y | x in a && y in b :: x.path != y.path
    ensures DistinctPaths(a + b)
  {
    var c := a + b;
    forall i, j | 0 <= i < j < |c| ensures c[i].path != c[j].path {
      if i < |a| <= j {
        assert c[i] in a && c[j] in b;
      }
    }
  }

  /** No two leaves share a path. */
  lemma {:induction false} LeavesDistinct(v: Json, path: seq<string>)
    ensures DistinctPaths(Leaves(v, path))
    decreases v, 1, 0
  {
    match v
    case JObject(fields) => FieldLeavesDistinct(v, SortedKeys(fields.Keys), path);
    case JArray(items) => ItemLeavesDistinct(v, 0, path);
    case _ =>
  }

  lemma {:induction false} FieldLeavesDistinct(v: Json, keys: seq<string>, path: seq<string>)
    requires v.JObject? && (forall k | k in keys :: k in v.fields)
    requires forall i, j | 0 <= i < j < |keys| :: keys[i] != keys[j]
    ensures DistinctPaths(FieldLeaves(v, keys, path))
    decreases v, 0, |keys|
  {
    if keys != [] {
      var a, b := Leaves(v.fields[keys[0]], path + [keys[0]]), FieldLeaves(v, keys[1..], path);
      LeavesDistinct(v.fields[keys[0]], path + [keys[0]]);
      FieldLeavesDistinct(v, keys[1..], path);
      forall x, y | x in a && y in b ensures x.path != y.path {
        LeafReached(v.fields[keys[0]], path + [keys[0]], x);
        PathStep(path, keys[0], x.path);
        FieldLeafReached(v, keys[1..], path, y);
      }
      DistinctConcat(a, b);
    }
  }

  lemma {:induction false} ItemLeavesDistinct(v: Json, from: nat, path: seq<string>)
    requires v.JArray? && from <= |v.items|
    ensures DistinctPaths(ItemLeaves(v, from, path))
    decreases v, 0, |v.items| - from
  {
    if from < |v.items| {
      var a, b := Leaves(v.items[from], path + [Decimal(from)]), ItemLeaves(v, from + 1, path);
      LeavesDistinct(v.items[from], path + [Decimal(from)]);
      ItemLeavesDistinct(v, from + 1, path);
      forall x, y | x in a && y in b ensures x.path != y.path {
        LeafReached(v.items[from], path + [Decimal(from)], x);
        PathStep(path, Decimal(from), x.path);
        ItemLeafReached(v, from + 1, path, y);
        var i :| from + 1 <= i < |v.items| && y.path[|path|] == Decimal(i);
        DecimalRoundTrip(i);
        DecimalRoundTrip(from);
      }
      DistinctConcat(a, b);
    }
  }

  // ------------------------------------------------------------- leaves by pointer

  /** dict(_string_leaves(payload)). */
  function LeafMap(leaves: seq<Leaf>): (m: map<string, string>)
    ensures forall p :: p in m <==> exists l | l in leaves :: p == Pointer(l.path)
  {
    if leaves == [] then map[]
    else LeafMap(leaves[..|leaves| - 1])[Pointer(leaves[|leaves| - 1].path) := leaves[|leaves| - 1].text]
  }

  function LeavesByPointer(payload: Json): map<string, string> {
    LeafMap(Leaves(payload, []))
  }

  lemma FreshPointer(init: seq<Leaf>, last: Leaf)
    requires forall l | l in init :: l.path != last.path
    ensures Pointer(last.path) !in LeafMap(init)
  {
    if Pointer(last.path) in LeafMap(init) {
      var l :| l in init && Pointer(last.path) == Pointer(l.path);
      PointerInjective(l.path, last.path);
    }
  }

  lemma {:induction false} LeafMapKeepsAll(leaves: seq<Leaf>)
    requires DistinctPaths(leaves)
    ensures |LeafMap(leaves)| == |leaves|
    ensures forall l | l in leaves :: Pointer(l.path) in LeafMap(leaves) && LeafMap(leaves)[Pointer(l.path)] == l.text
  {
    hide Pointer;
    if leaves != [] {
      var init, last := leaves[..|leaves| - 1], leaves[|leaves| - 1];
      LeafMapKeepsAll(init);
      FreshPointer(init, last);
      assert LeafMap(leaves) == LeafMap(init)[Pointer(last.path) := last.text];
      forall l | l in leaves
        ensures Pointer(l.path) in LeafMap(leaves) && LeafMap(leaves)[Pointer(l.path)] == l.text
      {
        if l != last {
          assert l in init;
        }
      }
    }
  }

  /** The dictionary of leaves drops nothing, and maps a pointer to a text exactly
      when the pointer's segments reach that text in the payload. */
  lemma LeavesByPointerExact(payload: Json)
    ensures |LeavesByPointer(payload)| == |Leaves(payload, [])|
    ensures forall segments, text ::
              (Pointer(segments) in LeavesByPointer(payload) && LeavesByPointer(payload)[Pointer(segments)] == text)
              <==> Reaches(payload, segments, text)
  {
    var leaves := Leaves(payload, []);
    LeavesDistinct(payload, []);
    LeafMapKeepsAll(leaves);
    forall segments, text
      ensures (Pointer(segments) in LeafMap(leaves) && LeafMap(leaves)[Pointer(segments)] == text)
              <==> Reaches(payload, segments, text)
    {
      if Reaches(payload, segments, text) {
        ReachedListed(payload, [], segments, text);
        assert [] + segments == segments;
      }
      if Pointer(segments) in LeafMap(leaves) {
        var l :| l in leaves && Pointer(segments) == Pointer(l.path);
        PointerInjective(segments, l.path);
        LeafReached(payload, [], l);
        assert segments[0..] == segments;
      }
    }
  }

  // -------------------------------------------------------------- walking a pointer

  /** items[i], where a negative index counts from the end. */
  function ItemAt(items: seq<Json>, i: int): Option<Json> {
    if 0 <= i < |items| then Some(items[i])
    else if -|items| <= i < 0 then Some(items[i + |items|])
    else None
  }

  /** One step of _json_value; a list index is read as an integer literal. */
  function WalkStep(current: Json, token: string): Option<Json> {
    var key := Unescape(token);
    match current
    case JArray(items) =>
      if ReadInt(key).None? then None else ItemAt(items, ReadInt(key).value)
    case JObject(fields) => if key in fields then Some(fields[key]) else None
    case _ => None
  }

  /** _json_value: the loop over the tokens of a selector that starts with a slash. */
  method JsonValue(payload: Json, selector: string) returns (r: Option<Json>)
    ensures r == if selector == [] || selector[0] != '/' then None else Walk(payload, Split(selector[1..], '/'))
  {
    if selector == [] || selector[0] != '/' {
      return None;
    }
    var tokens := Split(selector[1..], '/');
    var current := payload;
    for i := 0 to |tokens|
      invariant Walk(payload, tokens) == Walk(current, tokens[i..])
    {
      assert tokens[i..][1..] == tokens[i + 1..];
      var next := WalkStep(current, tokens[i]);
      if next.None? {
        return None;
      }
      current := next.value;
    }
    return Some(current);
  }

  function Walk(current: Json, tokens: seq<string>): Option<Json> {
    if tokens == [] then Some(current)
    else
      var next := WalkStep(current, tokens[0]);
      if next.None? then None else Walk(next.value, tokens[1..])
  }

  /** One step leads to a member of an object by its unescaped key, or to an item of a list
      by its index, which may also count from the end. */
  ghost predicate StepTo(current: Json, token: string, next: Json) {
    var key := Unescape(token);
    || (current.JObject? && key in current.fields && current.fields[key] == next)
    || (current.JArray? &&
        exists i: nat | i < |current.items| && current.items[i] == next ::
          ReadInt(key) == Some(i) || ReadInt(key) == Some(i - |current.items|))
  }

  /** A step is taken exactly when it leads somewhere, and then there. */
  lemma WalkStepExactly(current: Json, token: string, next: Json)
    ensures WalkStep(current, token) == Some(next) <==> StepTo(current, token, next)
  {
    hide Unescape, ReadInt;
    if current.JArray? && ReadInt(Unescape(token)).Some? {
      var i, n := ReadInt(Unescape(token)).value, |current.items|;
      if -n <= i < 0 {
        assert i == (i + n) - n;
      }
    }
  }

  /** The value, of any kind, that the segments select. */
  ghost predicate Selects(v: Json, segments: seq<string>, found: Json)
    decreases v
  {
    if segments == [] then v == found
    else
      match v
      case JObject(fields) => segments[0] in fields && Selects(fields[segments[0]], segments[1..], found)
      case JArray(items) =>
        exists i | 0 <= i < |items| :: segments[0] == Decimal(i) && Selects(items[i], segments[1..], found)
      case _ => false
  }

  /** Walking the tokens of the segments returns exactly what they select: numbers and
      containers as well as text. */
  lemma {:induction false} WalkSelected(v: Json, segments: seq<string>, found: Json)
    requires Selects(v, segments, found)
    ensures Walk(v, Map(Escape, segments)) == Some(found)
    decreases v
  {
    if segments != [] {
      var tokens := Map(Escape, segments);
      UnescapeEscape(segments[0]);
      assert tokens[1..] == Map(Escape, segments[1..]);
      match v
      case JObject(fields) => WalkSelected(fields[segments[0]], segments[1..], found);
      case JArray(items) =>
        var i :| 0 <= i < |items| && segments[0] == Decimal(i) && Selects(items[i], segments[1..], found);
        ReadDecimal(i);
        WalkSelected(items[i], segments[1..], found);
      case _ =>
    }
  }

  lemma {:induction false} ReachesSelects(v: Json, segments: seq<string>, text: string)
    requires Reaches(v, segments, text)
    ensures Selects(v, segments, JString(text))
    decreases v
  {
    match v
    case JObject(fields) => ReachesSelects(fields[segments[0]], segments[1..], text);
    case JArray(items) =>
      var i :| 0 <= i < |items| && segments[0] == Decimal(i) && Reaches(items[i], segments[1..], text);
      ReachesSelects(items[i], segments[1..], text);
    case _ =>
  }

  /** A selector spelled by a printed pointer evaluates to what its segments select. */
  lemma SelectorEvaluates(payload: Json, segments: seq<string>, found: Json)
    requires segments != [] && Selects(payload, segments, found)
    ensures var p := Pointer(segments); p[0] == '/' && Walk(payload, Split(p[1..], '/')) == Some(found)
  {
    WalkSelected(payload, segments, found);
    var tokens := Map(Escape, segments);
    forall i | 0 <= i < |tokens| ensures '/' !in tokens[i] {
      EscapeCanonical(segments[i]);
      CanonicalHasNoSlash(tokens[i]);
    }
    SplitJoin(tokens, '/');
    assert Pointer(segments)[1..] == Join(tokens, '/');
  }

  /** Walking any emitted pointer except the root's returns its leaf. */
  lemma WalkEmittedPointer(payload: Json, leaf: Leaf)
    requires leaf in Leaves(payload, []) && leaf.path != []
    ensures var p := Pointer(leaf.path);
            p[0] == '/' && Walk(payload, Split(p[1..], '/')) == Some(JString(leaf.text))
  {
    LeafReached(payload, [], leaf);
    assert leaf.path[0..] == leaf.path;
    ReachesSelects(payload, leaf.path, leaf.text);
    SelectorEvaluates(payload, leaf.path, JString(leaf.text));
  }
}
