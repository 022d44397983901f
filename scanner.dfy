/**
 * The metadata block scanner (_source_load): find the ":dotsctl:" marker in the
 * first page of a file, then collect the indented block that follows it, up to
 * and including the "..." line, and hand it to the YAML loader.
 */
module Scanner {
  import opened Base
  import opened Meta

  /** One line of the file, without its line terminator, or a line that does not decode as text. */
  datatype Line = Text(s: string) | Undecodable

  const CheckLines: nat := 30  // one page
  const Marker: string := ":dotsctl:"
  const EndMark: string := "..."

  /** readline(): the k-th line, or "" once the file is exhausted. */
  function ReadLine(file: seq<Line>, k: nat): Line {
    if k < |file| then file[k] else Text("")
  }

  predicate OccursAt(s: string, pat: string, j: int) {
    0 <= j && j + |pat| <= |s| && s[j..j + |pat|] == pat
  }

  /** The first occurrence of pat in s at or after k. */
  function IndexFrom(s: string, pat: string, k: nat): (r: Option<nat>)
    ensures r.Some? ==> k <= r.value && OccursAt(s, pat, r.value)
    ensures r.Some? ==> forall j :: k <= j < r.value ==> !OccursAt(s, pat, j)
    ensures r.None? ==> forall j :: k <= j ==> !OccursAt(s, pat, j)
    decreases |s| - k
  {
    if k + |pat| > |s| then None
    else if s[k..k + |pat|] == pat then Some(k)
    else IndexFrom(s, pat, k + 1)
  }

  /** str.index(pat), with None where Python raises ValueError. */
  function IndexOf(s: string, pat: string): (r: Option<nat>)
    ensures r.Some? ==> OccursAt(s, pat, r.value) && forall j :: 0 <= j < r.value ==> !OccursAt(s, pat, j)
    ensures r.None? ==> forall j :: !OccursAt(s, pat, j)
  {
    IndexFrom(s, pat, 0)
  }

  /** The characters Python's str.isspace() accepts. */
  predicate IsSpace(c: char) {
    c == ' ' || '\t' <= c <= '\r' || '\U{1C}' <= c <= '\U{1F}' || c == '\U{85}' || c == '\U{A0}'
    || c == '\U{1680}' || '\U{2000}' <= c <= '\U{200A}' || c == '\U{2028}' || c == '\U{2029}'
    || c == '\U{202F}' || c == '\U{205F}' || c == '\U{3000}'
  }

  /** str.rstrip(): s without its trailing whitespace. */
  function RStrip(s: string): string {
    if |s| > 0 && IsSpace(s[|s| - 1]) then RStrip(s[..|s| - 1]) else s
  }

  /** rstrip() keeps a prefix that does not end in whitespace and drops only whitespace. */
  lemma {:induction false} RStripSpec(s: string)
    ensures var r := RStrip(s);
      |r| <= |s| && r == s[..|r|] && (r == "" || !IsSpace(r[|r| - 1]))
      && forall i :: |r| <= i < |s| ==> IsSpace(s[i])
  {
    if |s| > 0 && IsSpace(s[|s| - 1]) {
      RStripSpec(s[..|s| - 1]);
    }
  }

  /** A block line as collected: s[indent:].rstrip(). */
  function Stripped(s: string, indent: nat): string {
    RStrip(if indent <= |s| then s[indent..] else "")
  }

  /** Where the marker was found: the line's index and the marker's column in it. */
  datatype Header = Header(line: nat, indent: nat)

  /** The header search, from line k of the first page on. */
  function FindHeader(file: seq<Line>, k: nat): Option<Header>
    decreases CheckLines - k
  {
    if k >= CheckLines then None
    else match ReadLine(file, k)
      case Undecodable => None  // not text: no metadata
      case Text(s) =>
        match IndexOf(s, Marker)
        case Some(col) => Some(Header(k, col))
        case None => FindHeader(file, k + 1)
  }

  /** The block collection, from line k on. */
  function Collect(file: seq<Line>, indent: nat, k: nat): Result<seq<string>>
    decreases |file| - k
  {
    if k >= |file| then Err(UnterminatedBlock)
    else match file[k]
      case Undecodable => Err(UndecodableBlock)
      case Text(s) =>
        var line := Stripped(s, indent);
        if line == EndMark then Ok([line])
        else match Collect(file, indent, k + 1)
          case Ok(rest) => Ok([line] + rest)
          case Err(e) => Err(e)
  }

  /** The outcome of the text extraction, before the YAML loader sees it. */
  datatype Scan = NoHeader | Block(header: Header, lines: seq<string>) | Broken(error: Error)

  function ScanFile(file: seq<Line>): Scan {
    match FindHeader(file, 0)
    case None => NoHeader
    case Some(h) =>
      match Collect(file, h.indent, h.line + 1)
      case Ok(lines) => Block(h, lines)
      case Err(e) => Broken(e)
  }

  /** What _source_load returns: None for "no metadata", or the loaded metadata, or the exception. */
  function Load(file: seq<Line>, parse: seq<string> -> YamlResult): Result<Option<Metadata>> {
    match ScanFile(file)
    case NoHeader => Ok(None)
    case Broken(e) => Err(e)
    case Block(_, lines) =>
      match parse(lines)
      case Document(m) => Ok(Some(m))
      case EmptyDocument => Ok(None)
      case ParseError => Err(YamlError)
  }

  function Prepend(lines: seq<string>, r: Result<seq<string>>): Result<seq<string>> {
    match r
    case Ok(rest) => Ok(lines + rest)
    case Err(e) => Err(e)
  }

  lemma PrependNothing(r: Result<seq<string>>)
    ensures Prepend([], r) == r
  {
    if r.Ok? {
      assert [] + r.value == r.value;
    }
  }

  /** One step of the collection loop: a decodable line is collected and the next one read. */
  lemma CollectStep(file: seq<Line>, indent: nat, k: nat, lines: seq<string>)
    requires k < |file| && file[k].Text?
    ensures var line := Stripped(file[k].s, indent);
      Prepend(lines, Collect(file, indent, k))
        == if line == EndMark then Ok(lines + [line])
           else Prepend(lines + [line], Collect(file, indent, k + 1))
  {
    var line := Stripped(file[k].s, indent);
    if line != EndMark {
      match Collect(file, indent, k + 1)
      case Ok(rest) =>
        assert lines + ([line] + rest) == (lines + [line]) + rest;
      case Err(e) =>
    }
  }

  /**
   * _source_load. Where the installer's second loop would spin forever on an
   * exhausted file (readline() keeps returning ""), this one reports UnterminatedBlock.
   */
  method SourceLoad(file: seq<Line>, parse: seq<string> -> YamlResult) returns (r: Result<Option<Metadata>>)
    ensures r == Load(file, parse)
  {
    var lineNr := 0;
    var indent: Option<nat> := None;

    // Look for the header line and record its indent.
    while lineNr < CheckLines
      invariant 0 <= lineNr <= CheckLines
      invariant indent.None? && FindHeader(file, 0) == FindHeader(file, lineNr)
    {
      lineNr := lineNr + 1;
      var line := ReadLine(file, lineNr - 1);
      if line.Undecodable? {
        assert FindHeader(file, lineNr - 1) == None;
        return Ok(None);
      }
      indent := IndexOf(line.s, Marker);
      if indent.Some? {
        assert FindHeader(file, 0) == Some(Header(lineNr - 1, indent.value));
        break;
      }
      assert FindHeader(file, lineNr - 1) == FindHeader(file, lineNr);
    }

    if indent.None? {
      return Ok(None);
    }
    assert 1 <= lineNr && FindHeader(file, 0) == Some(Header(lineNr - 1, indent.value));

    // Collect the block up to and including the end mark.
    var col := indent.value;
    var lines: seq<string> := [];
    ghost var start := lineNr;
    PrependNothing(Collect(file, col, lineNr));
    while true
      invariant start <= lineNr
      invariant FindHeader(file, 0) == Some(Header(start - 1, col))
      invariant Collect(file, col, start) == Prepend(lines, Collect(file, col, lineNr))
      decreases |file| - lineNr
    {
      if lineNr >= |file| {
        return Err(UnterminatedBlock);
      }
      if file[lineNr].Undecodable? {
        return Err(UndecodableBlock);
      }
      var line := Stripped(file[lineNr].s, col);
      CollectStep(file, col, lineNr, lines);
      lines := lines + [line];
      lineNr := lineNr + 1;
      if line == EndMark {
        break;
      }
    }

    match parse(lines)
    case Document(m) => r := Ok(Some(m));
    case EmptyDocument => r := Ok(None);
    case ParseError => r := Err(YamlError);
  }

  // Properties of the scan

  ghost predicate HasMarker(s: string) {
    exists c :: OccursAt(s, Marker, c)
  }

  /** Column c is where the marker first occurs in s. */
  ghost predicate FirstMarkerAt(s: string, c: nat) {
    OccursAt(s, Marker, c) && forall j :: 0 <= j < c ==> !OccursAt(s, Marker, j)
  }

  /**
   * Line k is the header line: it is within the first page and carries the marker,
   * and every line read before it decodes and carries no marker.
   */
  ghost predicate IsHeaderLine(file: seq<Line>, k: nat) {
    k < CheckLines && ReadLine(file, k).Text? && HasMarker(ReadLine(file, k).s)
    && forall j :: 0 <= j < k ==> ReadLine(file, j).Text? && !HasMarker(ReadLine(file, j).s)
  }

  lemma {:induction false} FindHeaderFrom(file: seq<Line>, k: nat, h: Header)
    requires k <= CheckLines
    requires forall j :: 0 <= j < k ==> ReadLine(file, j).Text? && !HasMarker(ReadLine(file, j).s)
    ensures FindHeader(file, k) == Some(h) <==> IsHeaderLine(file, h.line) && FirstMarkerAt(ReadLine(file, h.line).s, h.indent)
    ensures FindHeader(file, k).None? <==> forall m :: !IsHeaderLine(file, m)
    decreases CheckLines - k
  {
    if k < CheckLines {
      match ReadLine(file, k)
      case Undecodable =>
        forall m: nat ensures !IsHeaderLine(file, m) {
          if m > k {
            assert !ReadLine(file, k).Text?;
          }
        }
      case Text(s) =>
        var found := IndexOf(s, Marker);
        if found.Some? {
          assert HasMarker(s);
          assert IsHeaderLine(file, k);
          forall m: nat ensures IsHeaderLine(file, m) ==> m == k {
            assert HasMarker(ReadLine(file, k).s);
          }
        } else {
          assert !HasMarker(s);
          FindHeaderFrom(file, k + 1, h);
        }
    }
  }

  /**
   * The header is the first line of the first page holding the marker, provided
   * every line before it decodes; its indent is the column of the marker's first
   * occurrence on that line.
   */
  lemma HeaderIsFirstMarkerLine(file: seq<Line>, h: Header)
    ensures FindHeader(file, 0) == Some(h) <==> IsHeaderLine(file, h.line) && FirstMarkerAt(ReadLine(file, h.line).s, h.indent)
  {
    FindHeaderFrom(file, 0, h);
  }

  /** No metadata is found exactly when no line of the first page is a header line. */
  lemma NoHeaderWithoutMarker(file: seq<Line>)
    ensures ScanFile(file) == NoHeader <==> forall m :: !IsHeaderLine(file, m)
  {
    FindHeaderFrom(file, 0, Header(0, 0));
  }

  /** The header search reads only the first page: files whose first 30 lines read alike give the same header. */
  lemma {:induction false} HeaderReadsFirstPage(f1: seq<Line>, f2: seq<Line>, k: nat)
    requires forall j :: 0 <= j < CheckLines ==> ReadLine(f1, j) == ReadLine(f2, j)
    ensures FindHeader(f1, k) == FindHeader(f2, k)
    decreases CheckLines - k
  {
    if k < CheckLines {
      HeaderReadsFirstPage(f1, f2, k + 1);
    }
  }

  /** line is what the block collects from line j of the file. */
  ghost predicate LineAt(file: seq<Line>, indent: nat, j: nat, line: string) {
    j < |file| && file[j].Text? && line == Stripped(file[j].s, indent)
  }

  /**
   * lines is the block that starts at line start: each entry is the next line of
   * the file with the indent cut off and trailing whitespace stripped; the last
   * entry is the end mark and no earlier one is.
   */
  ghost predicate IsBlock(file: seq<Line>, indent: nat, start: nat, lines: seq<string>) {
    |lines| > 0 && start + |lines| <= |file|
    && (forall i :: 0 <= i < |lines| ==> LineAt(file, indent, start + i, lines[i]))
    && lines[|lines| - 1] == EndMark
    && (forall i :: 0 <= i < |lines| - 1 ==> lines[i] != EndMark)
  }

  lemma {:induction false} CollectGivesBlock(file: seq<Line>, indent: nat, k: nat, lines: seq<string>)
    requires Collect(file, indent, k) == Ok(lines)
    ensures IsBlock(file, indent, k, lines)
    decreases |file| - k
  {
    assert k < |file| && file[k].Text?;
    var line := Stripped(file[k].s, indent);
    if line != EndMark {
      var rest := Collect(file, indent, k + 1).value;
      CollectGivesBlock(file, indent, k + 1, rest);
      assert lines == [line] + rest;
      forall i | 0 <= i < |lines| ensures LineAt(file, indent, k + i, lines[i]) {
        if i > 0 {
          assert lines[i] == rest[i - 1];
          assert LineAt(file, indent, (k + 1) + (i - 1), rest[i - 1]);
        }
      }
    } else {
      assert lines == [line];
    }
  }

  lemma {:induction false} BlockGivesCollect(file: seq<Line>, indent: nat, k: nat, lines: seq<string>)
    requires IsBlock(file, indent, k, lines)
    ensures Collect(file, indent, k) == Ok(lines)
    decreases |file| - k
  {
    assert LineAt(file, indent, k + 0, lines[0]);
    var line := Stripped(file[k].s, indent);
    if line == EndMark {
      assert |lines| == 1;
      assert lines == [line];
    } else {
      var rest := lines[1..];
      assert |lines| > 1;
      forall i | 0 <= i < |rest| ensures LineAt(file, indent, (k + 1) + i, rest[i]) {
        assert rest[i] == lines[i + 1];
        assert LineAt(file, indent, k + (i + 1), lines[i + 1]);
      }
      forall i | 0 <= i < |rest| - 1 ensures rest[i] != EndMark {
        assert rest[i] == lines[i + 1];
      }
      assert rest[|rest| - 1] == lines[|lines| - 1];
      BlockGivesCollect(file, indent, k + 1, rest);
      assert lines == [line] + rest;
    }
  }

  lemma CollectIsBlock(file: seq<Line>, indent: nat, k: nat, lines: seq<string>)
    ensures Collect(file, indent, k) == Ok(lines) <==> IsBlock(file, indent, k, lines)
  {
    if Collect(file, indent, k) == Ok(lines) {
      CollectGivesBlock(file, indent, k, lines);
    }
    if IsBlock(file, indent, k, lines) {
      BlockGivesCollect(file, indent, k, lines);
    }
  }

  /** The block runs to the end of the file without an end mark exactly when every line after the header decodes and none strips to "...". */
  lemma {:induction false} CollectUnterminated(file: seq<Line>, indent: nat, k: nat)
    ensures Collect(file, indent, k) == Err(UnterminatedBlock)
      <==> forall j :: k <= j < |file| ==> file[j].Text? && Stripped(file[j].s, indent) != EndMark
    decreases |file| - k
  {
    if k < |file| {
      CollectUnterminated(file, indent, k + 1);
    }
  }

  /**
   * The collection loop exactly as the installer runs it: past the end of the file
   * readline() keeps returning "", so only a "..." line ends it. Run for at most
   * fuel lines, it gives the block or the error, or None when it is still running.
   */
  function CollectAsWritten(file: seq<Line>, indent: nat, k: nat, fuel: nat): Option<Result<seq<string>>>
    decreases fuel
  {
    if fuel == 0 then None
    else match ReadLine(file, k)
      case Undecodable => Some(Err(UndecodableBlock))
      case Text(s) =>
        var line := Stripped(s, indent);
        if line == EndMark then Some(Ok([line]))
        else match CollectAsWritten(file, indent, k + 1, fuel - 1)
          case None => None
          case Some(Ok(rest)) => Some(Ok([line] + rest))
          case Some(Err(e)) => Some(Err(e))
  }

  /** When no "..." follows the header, the loop as written is still running after any number of lines. */
  lemma {:induction false} CollectAsWrittenHangs(file: seq<Line>, indent: nat, k: nat, fuel: nat)
    requires forall j :: k <= j < |file| ==> file[j].Text? && Stripped(file[j].s, indent) != EndMark
    ensures CollectAsWritten(file, indent, k, fuel) == None
    decreases fuel
  {
    if fuel > 0 {
      assert Stripped("", indent) == "";
      CollectAsWrittenHangs(file, indent, k + 1, fuel - 1);
    }
  }

  /** Everywhere else the loop as written ends within the file and agrees with Collect. */
  lemma {:induction false} CollectAsWrittenAgrees(file: seq<Line>, indent: nat, k: nat)
    requires Collect(file, indent, k) != Err(UnterminatedBlock)
    ensures k < |file| && CollectAsWritten(file, indent, k, |file| - k) == Some(Collect(file, indent, k))
    decreases |file| - k
  {
    if file[k].Text? && Stripped(file[k].s, indent) != EndMark {
      CollectAsWrittenAgrees(file, indent, k + 1);
    }
  }

  /**
   * A block is returned exactly when there is a header line, and the block is the
   * lines after it (the marker line itself is not collected) up to and including the first "...".
   */
  lemma ScanFindsBlock(file: seq<Line>, h: Header, lines: seq<string>)
    ensures ScanFile(file) == Block(h, lines)
      <==> IsHeaderLine(file, h.line) && FirstMarkerAt(ReadLine(file, h.line).s, h.indent)
           && IsBlock(file, h.indent, h.line + 1, lines)
  {
    HeaderIsFirstMarkerLine(file, h);
    CollectIsBlock(file, h.indent, h.line + 1, lines);
  }
}
