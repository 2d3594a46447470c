/** Reading the blobs out of one git cat-file --batch answer
    (scripts/publication_audit.py lines 84-115). Bytes are characters; offsets are
    integers because slices and searches count negative ones from the end. */
module BatchFrames {
  import opened Options
  import opened Text

  datatype Fault = MissingHeader | DifferentBlob | NotABlob | InvalidSize | TruncatedBlob | TrailingBytes

  datatype Parsed = Blobs(blobs: seq<string>) | Raised(fault: Fault)

  // ------------------------------------------------------------- bytes operations

  /** An offset as slices and searches resolve it. */
  function Offset(s: string, i: int): nat {
    if i < 0 then (if i + |s| < 0 then 0 else i + |s|) else if i > |s| then |s| else i
  }

  /** s[lo:hi]. */
  function Slice(s: string, lo: int, hi: int): string {
    if Offset(s, lo) <= Offset(s, hi) then s[Offset(s, lo)..Offset(s, hi)] else []
  }

  function FindFrom(s: string, i: nat): (r: Option<nat>)
    requires i <= |s|
    ensures r.Some? ==> i <= r.value < |s| && s[r.value] == '\n' && forall k | i <= k < r.value :: s[k] != '\n'
    ensures r.None? ==> forall k | i <= k < |s| :: s[k] != '\n'
    decreases |s| - i
  {
    if i == |s| then None else if s[i] == '\n' then Some(i) else FindFrom(s, i + 1)
  }

  /** s.find(b"\n", i). */
  function FindNewline(s: string, i: int): Option<nat> {
    FindFrom(s, Offset(s, i))
  }

  predicate IsSpace(c: char) {
    c == ' ' || c == '\t' || c == '\n' || c == '\r' || c == '\U{B}' || c == '\U{C}'
  }

  predicate NoSpace(s: string) {
    forall i | 0 <= i < |s| :: !IsSpace(s[i])
  }

  function WordEnd(s: string): (n: nat)
    ensures n <= |s| && NoSpace(s[..n]) && (n < |s| ==> IsSpace(s[n]))
    ensures s != [] && !IsSpace(s[0]) ==> n > 0
  {
    if s == [] || IsSpace(s[0]) then 0
    else
      assert s[..WordEnd(s[1..]) + 1] == [s[0]] + s[1..][..WordEnd(s[1..])];
      WordEnd(s[1..]) + 1
  }

  /** s.split(). */
  function Fields(s: string): seq<string>
    decreases |s|
  {
    if s == [] then []
    else if IsSpace(s[0]) then Fields(s[1..])
    else [s[..WordEnd(s)]] + Fields(s[WordEnd(s)..])
  }

  // -------------------------------------------------------------------- the parser

  /** One entry: its blob and the offset after it. */
  datatype Step = Read(blob: string, next: int) | Failed(fault: Fault)

  function ReadEntry(output: string, position: int, id: string): Step {
    var headerEnd := FindNewline(output, position);
    if headerEnd.None? then Failed(MissingHeader)
    else
      var header := Fields(Slice(output, position, headerEnd.value));
      if |header| != 3 || header[0] != id then Failed(DifferentBlob)
      else if header[1] != "blob" then Failed(NotABlob)
      else
        var size := ReadInt(header[2]);
        if size.None? then Failed(InvalidSize)
        else
          var dataStart := headerEnd.value + 1;
          var dataEnd := dataStart + size.value;
          if dataEnd >= |output| || Slice(output, dataEnd, dataEnd + 1) != "\n" then Failed(TruncatedBlob)
          else Read(Slice(output, dataStart, dataEnd), dataEnd + 1)
  }

  /** The loop from a given offset on. */
  function Parse(output: string, position: int, ids: seq<string>): Parsed
    decreases |ids|
  {
    if ids == [] then (if position != |output| then Raised(TrailingBytes) else Blobs([]))
    else
      match ReadEntry(output, position, ids[0])
      case Failed(fault) => Raised(fault)
      case Read(blob, next) =>
        match Parse(output, next, ids[1..])
        case Raised(fault) => Raised(fault)
        case Blobs(rest) => Blobs([blob] + rest)
  }

  function Prepend(blobs: seq<string>, p: Parsed): Parsed {
    match p
    case Raised(fault) => Raised(fault)
    case Blobs(rest) => Blobs(blobs + rest)
  }

  /** index_blobs, on the answer to the batch request. */
  method IndexBlobs(output: string, ids: seq<string>) returns (r: Parsed)
    ensures r == Parse(output, 0, ids)
  {
    hide Slice, FindNewline, Fields, ReadInt;
    var position: int := 0;
    var blobs: seq<string> := [];
    for i := 0 to |ids|
      invariant Parse(output, 0, ids) == Prepend(blobs, Parse(output, position, ids[i..]))
    {
      assert ids[i..][0] == ids[i] && ids[i..][1..] == ids[i + 1..];
      var headerEnd := FindNewline(output, position);
      if headerEnd.None? {
        return Raised(MissingHeader);
      }
      var header := Fields(Slice(output, position, headerEnd.value));
      if |header| != 3 || header[0] != ids[i] {
        return Raised(DifferentBlob);
      }
      if header[1] != "blob" {
        return Raised(NotABlob);
      }
      var size := ReadInt(header[2]);
      if size.None? {
        return Raised(InvalidSize);
      }
      var dataStart := headerEnd.value + 1;
      var dataEnd := dataStart + size.value;
      if dataEnd >= |output| || Slice(output, dataEnd, dataEnd + 1) != "\n" {
        return Raised(TruncatedBlob);
      }
      PrependNext(blobs, Slice(output, dataStart, dataEnd), Parse(output, dataEnd + 1, ids[i + 1..]));
      blobs := blobs + [Slice(output, dataStart, dataEnd)];
      position := dataEnd + 1;
    }
    assert ids[|ids|..] == [];
    if position != |output| {
      return Raised(TrailingBytes);
    }
    return Blobs(blobs);
  }

  lemma PrependNext(blobs: seq<string>, blob: string, p: Parsed)
    ensures Prepend(blobs, Prepend([blob], p)) == Prepend(blobs + [blob], p)
  {
    if p.Blobs? {
      assert blobs + ([blob] + p.blobs) == blobs + [blob] + p.blobs;
    }
  }

  // ------------------------------------------------------------------------ frames

  /** The header line names the blob and its exact size. */
  predicate HeaderSays(header: string, id: string, size: int) {
    '\n' !in header && |Fields(header)| == 3 && Fields(header)[0] == id && Fields(header)[1] == "blob"
    && ReadInt(Fields(header)[2]) == Some(size)
  }

  function Frame(header: string, blob: string): string {
    header + "\n" + blob + "\n"
  }

  function Frames(headers: seq<string>, blobs: seq<string>): string
    requires |headers| == |blobs|
  {
    if headers == [] then [] else Frame(headers[0], blobs[0]) + Frames(headers[1..], blobs[1..])
  }

  /** One frame per id, in order, and nothing else. */
  ghost predicate Framed(output: string, ids: seq<string>, blobs: seq<string>) {
    |ids| == |blobs| && exists headers: seq<string> | |headers| == |ids| ::
      (forall i | 0 <= i < |ids| :: HeaderSays(headers[i], ids[i], |blobs[i]|)) && output == Frames(headers, blobs)
  }

  /** Whether every size the parser reads is a natural number. */
  predicate NaturalSizes(output: string, position: int, ids: seq<string>)
    decreases |ids|
  {
    if ids == [] then true
    else
      match ReadEntry(output, position, ids[0])
      case Failed(_) => true
      case Read(_, next) => SizeAt(output, position) >= 0 && NaturalSizes(output, next, ids[1..])
  }

  /** The size field of the header at an offset, where there is one. */
  function SizeAt(output: string, position: int): int {
    var headerEnd := FindNewline(output, position);
    if headerEnd.None? then 0
    else
      var header := Fields(Slice(output, position, headerEnd.value));
      if |header| != 3 || ReadInt(header[2]).None? then 0 else ReadInt(header[2]).value
  }

  /** Reading at an offset whose header line is known. */
  lemma ReadHeaderAt(output: string, position: nat, headerEnd: nat, id: string, size: nat)
    requires position <= headerEnd < |output| && output[headerEnd] == '\n'
    requires HeaderSays(output[position..headerEnd], id, size)
    ensures SizeAt(output, position) == size
    ensures var dataEnd := headerEnd + 1 + size;
            dataEnd < |output| && output[dataEnd] == '\n' ==>
              ReadEntry(output, position, id) == Read(output[headerEnd + 1..dataEnd], dataEnd + 1)
  {
    hide Fields, ReadInt;
    var header := output[position..headerEnd];
    forall k | position <= k < headerEnd ensures output[k] != '\n' {
      assert header[k - position] == output[k];
    }
    var found := FindFrom(output, position);
    assert found == Some(headerEnd);
    assert Slice(output, position, headerEnd) == header;
  }

  /** Reading a frame that starts at an offset. */
  lemma ReadFrame(output: string, position: nat, header: string, id: string, blob: string)
    requires HeaderSays(header, id, |blob|)
    requires position <= |output| && Frame(header, blob) <= output[position..]
    ensures ReadEntry(output, position, id) == Read(blob, position + |Frame(header, blob)|)
    ensures SizeAt(output, position) == |blob|
  {
    hide HeaderSays, ReadEntry, SizeAt, Frame;
    var headerEnd := position + |header|;
    var frame, dataEnd := Frame(header, blob), headerEnd + 1 + |blob|;
    FrameParts(header, blob);
    PrefixAt(output, position, frame, 0, |header|);
    PrefixAt(output, position, frame, |header|, |header| + 1);
    PrefixAt(output, position, frame, |header| + 1, |frame| - 1);
    PrefixAt(output, position, frame, |frame| - 1, |frame|);
    ReadHeaderAt(output, position, headerEnd, id, |blob|);
  }

  lemma FrameParts(header: string, blob: string)
    ensures var frame := Frame(header, blob);
            && |frame| == |header| + |blob| + 2
            && frame[0..|header|] == header && frame[|header|..|header| + 1] == "\n"
            && frame[|header| + 1..|frame| - 1] == blob && frame[|frame| - 1..|frame|] == "\n"
  {
  }

  lemma PrefixAt(output: string, position: nat, s: string, lo: nat, hi: nat)
    requires position <= |output| && s <= output[position..] && lo <= hi <= |s|
    ensures output[position + lo..position + hi] == s[lo..hi]
    ensures hi == lo + 1 ==> output[position + lo] == s[lo] == s[lo..hi][0]
  {
    assert output[position..][..|s|] == s;
    assert output[position + lo..position + hi] == output[position..][lo..hi];
    assert output[position..][lo..hi] == output[position..][..|s|][lo..hi];
  }

  /** Any concatenation of frames parses to its blobs. */
  lemma {:induction false} FramesParse(output: string, position: nat, ids: seq<string>, headers: seq<string>,
                                       blobs: seq<string>)
    requires |headers| == |ids| == |blobs| && position <= |output| && output[position..] == Frames(headers, blobs)
    requires forall i | 0 <= i < |ids| :: HeaderSays(headers[i], ids[i], |blobs[i]|)
    ensures Parse(output, position, ids) == Blobs(blobs) && NaturalSizes(output, position, ids)
    decreases |ids|
  {
    hide HeaderSays, ReadEntry, SizeAt, Frame;
    if ids != [] {
      var frame := Frame(headers[0], blobs[0]);
      ReadFrame(output, position, headers[0], ids[0], blobs[0]);
      var next := position + |frame|;
      assert output[next..] == Frames(headers[1..], blobs[1..]) by {
        assert output[position..][|frame|..] == output[next..];
      }
      FramesParse(output, next, ids[1..], headers[1..], blobs[1..]);
      assert blobs == [blobs[0]] + blobs[1..];
    }
  }

  /** Where the header of an entry that was read ends. */
  lemma ReadHeaderEnd(output: string, position: nat, id: string) returns (headerEnd: nat)
    requires position <= |output| && ReadEntry(output, position, id).Read?
    ensures position <= headerEnd < |output| && output[headerEnd] == '\n'
    ensures HeaderSays(output[position..headerEnd], id, SizeAt(output, position))
    ensures var dataEnd := headerEnd + 1 + SizeAt(output, position);
            dataEnd < |output| && Slice(output, dataEnd, dataEnd + 1) == "\n" &&
            ReadEntry(output, position, id) == Read(Slice(output, headerEnd + 1, dataEnd), dataEnd + 1)
  {
    hide Fields, ReadInt;
    headerEnd := FindNewline(output, position).value;
    assert Slice(output, position, headerEnd) == output[position..headerEnd];
  }

  /** A frame read with a natural size is really there. */
  lemma ReadIsFrame(output: string, position: nat, id: string) returns (header: string)
    requires position <= |output| && ReadEntry(output, position, id).Read? && SizeAt(output, position) >= 0
    ensures var entry := ReadEntry(output, position, id);
            && HeaderSays(header, id, |entry.blob|)
            && position <= entry.next == position + |Frame(header, entry.blob)| <= |output|
            && output[position..entry.next] == Frame(header, entry.blob)
  {
    hide HeaderSays, ReadEntry, SizeAt;
    var entry := ReadEntry(output, position, id);
    var headerEnd := ReadHeaderEnd(output, position, id);
    header := output[position..headerEnd];
    var dataEnd := headerEnd + 1 + SizeAt(output, position);
    assert Slice(output, headerEnd + 1, dataEnd) == output[headerEnd + 1..dataEnd] == entry.blob;
    assert Slice(output, dataEnd, dataEnd + 1) == [output[dataEnd]];
    assert output[position..dataEnd + 1]
      == output[position..headerEnd] + [output[headerEnd]] + output[headerEnd + 1..dataEnd] + [output[dataEnd]];
  }

  lemma {:induction false} ParsedIsFrames(output: string, position: nat, ids: seq<string>)
    returns (headers: seq<string>)
    requires position <= |output| && Parse(output, position, ids).Blobs? && NaturalSizes(output, position, ids)
    ensures var blobs := Parse(output, position, ids).blobs;
            && |headers| == |ids| == |blobs|
            && (forall i | 0 <= i < |ids| :: HeaderSays(headers[i], ids[i], |blobs[i]|))
            && output[position..] == Frames(headers, blobs)
    decreases |ids|
  {
    hide HeaderSays, ReadEntry, SizeAt, Frame;
    if ids == [] {
      headers := [];
    } else {
      var header := ReadIsFrame(output, position, ids[0]);
      var entry := ReadEntry(output, position, ids[0]);
      var rest := ParsedIsFrames(output, entry.next, ids[1..]);
      headers := [header] + rest;
      var blobs := Parse(output, position, ids).blobs;
      assert headers[1..] == rest && blobs[1..] == Parse(output, entry.next, ids[1..]).blobs;
      assert output[position..] == output[position..entry.next] + output[entry.next..];
    }
  }

  /** Every framed output is accepted with exactly its blobs; an accepted output is
      framed if and only if every size read from it is a natural number. */
  lemma AcceptsExactlyFrames(output: string, ids: seq<string>, blobs: seq<string>)
    ensures Framed(output, ids, blobs) <==> Parse(output, 0, ids) == Blobs(blobs) && NaturalSizes(output, 0, ids)
  {
    hide HeaderSays, Parse, NaturalSizes, Frames;
    assert output[0..] == output;
    if Framed(output, ids, blobs) {
      var headers: seq<string> :| |headers| == |ids|
        && (forall i | 0 <= i < |ids| :: HeaderSays(headers[i], ids[i], |blobs[i]|)) &&
          output == Frames(headers, blobs);
      FramesParse(output, 0, ids, headers, blobs);
    }
    if Parse(output, 0, ids) == Blobs(blobs) && NaturalSizes(output, 0, ids) {
      var headers := ParsedIsFrames(output, 0, ids);
    }
  }

  // ------------------------------------------------------------------ what git prints

  lemma {:induction false} WordEndIs(w: string, rest: string)
    requires NoSpace(w) && (rest == [] || IsSpace(rest[0]))
    ensures WordEnd(w + rest) == |w|
  {
    if w != [] {
      assert (w + rest)[1..] == w[1..] + rest;
      WordEndIs(w[1..], rest);
    }
  }

  lemma FieldsWord(w: string, rest: string)
    requires w != [] && NoSpace(w) && (rest == [] || IsSpace(rest[0]))
    ensures Fields(w + rest) == [w] + Fields(rest)
  {
    WordEndIs(w, rest);
    assert (w + rest)[..|w|] == w && (w + rest)[|w|..] == rest;
  }

  lemma FieldsSpace(rest: string)
    ensures Fields(" " + rest) == Fields(rest)
  {
    assert (" " + rest)[1..] == rest;
  }

  /** The header line for a blob. */
  function GitHeader(id: string, size: nat): string {
    id + (" " + ("blob" + (" " + Decimal(size))))
  }

  lemma GitHeaderSays(id: string, size: nat)
    requires id != [] && NoSpace(id)
    ensures HeaderSays(GitHeader(id, size), id, size)
  {
    hide Decimal, Fields, ReadInt;
    var d := Decimal(size);
    FieldsWord(id, " " + ("blob" + (" " + d)));
    FieldsSpace("blob" + (" " + d));
    FieldsWord("blob", " " + d);
    FieldsSpace(d);
    FieldsWord(d, []);
    assert d + [] == d && Fields([]) == [] by { FieldsNone(); }
    ReadDecimal(size);
    forall i | 0 <= i < |id| ensures id[i] != '\n' {}
  }

  lemma FieldsNone()
    ensures Fields([]) == []
  {
  }

  /** Git's own answer parses to the requested blobs, whatever bytes they hold. */
  lemma GitAnswerParses(ids: seq<string>, blobs: seq<string>)
    requires |ids| == |blobs| && forall i | 0 <= i < |ids| :: ids[i] != [] && NoSpace(ids[i])
    ensures Parse(Frames(seq(|ids|, i requires 0 <= i < |ids| => GitHeader(ids[i], |blobs[i]|)), blobs), 0, ids)
         == Blobs(blobs)
  {
    hide GitHeader, HeaderSays, NoSpace, Frames, Parse, NaturalSizes;
    var headers := seq(|ids|, i requires 0 <= i < |ids| => GitHeader(ids[i], |blobs[i]|));
    forall i | 0 <= i < |ids| ensures HeaderSays(headers[i], ids[i], |blobs[i]|) {
      GitHeaderSays(ids[i], |blobs[i]|);
    }
    var output := Frames(headers, blobs);
    assert output[0..] == output;
    FramesParse(output, 0, ids, headers, blobs);
  }

  /** The size -1 is accepted as an empty blob without its own newline. */
  lemma NegativeSizeAccepted()
    ensures Parse("a blob -1\n", 0, ["a"]) == Blobs([[]])
    ensures !Framed("a blob -1\n", ["a"], [[]])
  {
    hide Parse, NaturalSizes;
    NegativeSizeRead();
    NegativeSizeParsed();
    AcceptsExactlyFrames("a blob -1\n", ["a"], [[]]);
  }

  lemma NegativeSizeRead()
    ensures ReadEntry("a blob -1\n", 0, "a") == Read([], 10)
    ensures SizeAt("a blob -1\n", 0) == -1
  {
    var output := "a blob -1\n";
    hide Fields, ReadInt;
    assert FindFrom(output, 0) == Some(9);
    var header := output[..9];
    assert Slice(output, 0, 9) == header;
    assert header == "a" + (" " + ("blob" + (" " + "-1")));
    FieldsWord("a", " " + ("blob" + (" " + "-1")));
    FieldsSpace("blob" + (" " + "-1"));
    FieldsWord("blob", " " + "-1");
    FieldsSpace("-1");
    FieldsWord("-1", []);
    FieldsNone();
    assert "-1" + [] == "-1";
    ReadMinusOne();
    assert Slice(output, 9, 10) == "\n";
    assert Slice(output, 10, 9) == [];
  }

  lemma ReadMinusOne()
    ensures ReadInt("-1") == Some(-1)
  {
    ReadDecimal(1);
    assert Decimal(1) == "1";
    assert "-1"[1..] == "1";
  }

  lemma NegativeSizeParsed()
    ensures Parse("a blob -1\n", 0, ["a"]) == Blobs([[]])
    ensures !NaturalSizes("a blob -1\n", 0, ["a"])
  {
    hide ReadEntry, SizeAt;
    NegativeSizeRead();
    assert ["a"][1..] == [];
    assert |"a blob -1\n"| == 10;
    assert Parse("a blob -1\n", 10, []) == Blobs([]);
  }
}
