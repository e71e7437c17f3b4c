/** Printing a catalog as text and parsing it again gives back its rows, whatever the line ending. */
module CatalogPrinting {
  import opened Tasks
  import opened CatalogParser
  import opened Text

  /** `\n`, `\r\n` or a lone `\r`. */
  datatype LineEnding = Unix | Windows | Classic {
    function Text(): string { match this case Unix => "\n" case Windows => "\r\n" case Classic => "\r" }
  }

  predicate OneLine(s: string) { '\n' !in s && '\r' !in s }

  ghost predicate AllOneLine(lines: seq<string>) { forall i | 0 <= i < |lines| :: OneLine(lines[i]) }

  predicate Trimmed(s: string) { s != "" && !IsSpace(s[0]) && !IsSpace(s[|s| - 1]) }

  // ----------------------------------------------------------------- line endings and lines

  lemma {:induction false} NormaliseAfterLine(line: string, rest: string)
    requires OneLine(line)
    ensures Normalise(line + rest) == line + Normalise(rest)
  {
    if line == "" {
      assert line + rest == rest;
    } else {
      NormaliseAfterLine(line[1..], rest);
      assert (line + rest)[1..] == line[1..] + rest;
    }
  }

  lemma NormaliseAfterBreak(eol: LineEnding, rest: string)
    requires rest != "" ==> rest[0] != '\n'
    ensures Normalise(eol.Text() + rest) == "\n" + Normalise(rest)
  {
    var s := eol.Text() + rest;
    match eol
    case Unix => assert s[1..] == rest;
    case Windows => assert s[2..] == rest;
    case Classic => assert s[1..] == rest;
  }

  /** A printed text never starts with a bare newline, so a lone `\r` before it is not half of a `\r\n`. */
  lemma JoinStarts(lines: seq<string>, eol: LineEnding)
    requires lines != [] && AllOneLine(lines) && !eol.Unix?
    ensures var s := Join(lines, eol.Text()); s != "" ==> s[0] != '\n'
  {
    var s := Join(lines, eol.Text());
    if s != "" && lines[0] == "" { assert s[0] == eol.Text()[0]; }
    if s != "" && lines[0] != "" { assert s[0] == lines[0][0] && lines[0][0] in lines[0]; }
  }

  lemma {:induction false} NormaliseJoin(lines: seq<string>, eol: LineEnding)
    requires lines != [] && AllOneLine(lines)
    ensures Normalise(Join(lines, eol.Text())) == Join(lines, "\n")
  {
    if |lines| == 1 {
      NormaliseAfterLine(lines[0], "");
      assert lines[0] + "" == lines[0];
    } else {
      var rest := Join(lines[1..], eol.Text());
      NormaliseJoin(lines[1..], eol);
      assert Join(lines, eol.Text()) == lines[0] + (eol.Text() + rest);
      NormaliseAfterLine(lines[0], eol.Text() + rest);
      NormaliseBreak(eol, lines[1..]);
      assert Join(lines, "\n") == lines[0] + ("\n" + Join(lines[1..], "\n"));
    }
  }

  lemma NormaliseBreak(eol: LineEnding, lines: seq<string>)
    requires lines != [] && AllOneLine(lines)
    ensures var rest := Join(lines, eol.Text()); Normalise(eol.Text() + rest) == "\n" + Normalise(rest)
  {
    var rest := Join(lines, eol.Text());
    if eol.Unix? {
      assert (eol.Text() + rest)[1..] == rest;
    } else {
      JoinStarts(lines, eol);
      NormaliseAfterBreak(eol, rest);
    }
  }

  lemma {:induction false} SplitAfterLine(line: string, rest: string)
    requires OneLine(line)
    ensures Split(line + "\n" + rest) == [line] + Split(rest) && Split(line) == [line]
  {
    var s := line + "\n" + rest;
    if line == "" {
      assert s[0] == '\n' && s[1..] == rest;
    } else {
      SplitAfterLine(line[1..], rest);
      assert line == [line[0]] + line[1..] && line[0] in line;
      assert s[0] == line[0] && s[1..] == line[1..] + "\n" + rest;
    }
  }

  lemma {:induction false} SplitJoin(lines: seq<string>)
    requires lines != [] && AllOneLine(lines)
    ensures Split(Join(lines, "\n")) == lines
  {
    if |lines| == 1 {
      SplitAfterLine(lines[0], "");
    } else {
      SplitJoin(lines[1..]);
      SplitAfterLine(lines[0], Join(lines[1..], "\n"));
    }
  }

  lemma TrimmedIsStripped(s: string)
    requires Trimmed(s)
    ensures Strip(s) == s
  {
  }

  /** Reading back printed lines: no line is lost, split or changed. */
  lemma JoinedLinesAreReadBack(lines: seq<string>, eol: LineEnding)
    requires lines != [] && AllOneLine(lines) && forall i | 0 <= i < |lines| :: lines[i] == "" || Trimmed(lines[i])
    ensures Lines(Join(lines, eol.Text())) == lines
  {
    NormaliseJoin(lines, eol);
    SplitJoin(lines);
    forall i | 0 <= i < |lines| ensures Strip(lines[i]) == lines[i] {
      if lines[i] != "" { TrimmedIsStripped(lines[i]); }
    }
  }

  // ------------------------------------------------------------------------- catalogs

  ghost predicate IsName(n: string) { n != "" && OneLine(n) && !IsSpace(n[|n| - 1]) }

  ghost predicate IsTitle(t: string) { Trimmed(t) && OneLine(t) && Heading(t).None? && t != STOP }

  /** Names of the 20 domains and the 500 titles, such that no title reads as a heading or ends the catalog. */
  ghost predicate Printable(names: seq<string>, titles: seq<string>) {
    && |names| == 20 && |titles| == 500 && names[0] == CORE
    && (forall d | 0 <= d < 20 :: IsName(names[d]))
    && (forall k | 0 <= k < 500 :: IsTitle(titles[k]))
  }

  function HeadingLine(domain: nat, name: string): string { Decimal(domain) + ". " + name }

  function CatalogLine(names: seq<string>, titles: seq<string>, p: nat): string
    requires |names| == 20 && |titles| == 500 && p < 520
  {
    if p % 26 == 0 then HeadingLine(p / 26 + 1, names[p / 26]) else titles[25 * (p / 26) + p % 26 - 1]
  }

  function CatalogLines(names: seq<string>, titles: seq<string>): (r: seq<string>)
    requires |names| == 20 && |titles| == 500
    ensures |r| == 520 && forall p | 0 <= p < 520 :: r[p] == CatalogLine(names, titles, p)
  {
    seq(520, p requires 0 <= p < 520 => CatalogLine(names, titles, p))
  }

  function PrintCatalog(names: seq<string>, titles: seq<string>, eol: LineEnding): string
    requires |names| == 20 && |titles| == 500
  {
    Join(CatalogLines(names, titles) + [STOP], eol.Text())
  }

  lemma DecimalOfDomain(d: nat)
    requires 1 <= d <= 20
    ensures Decimal(d) == if d < 10 then [Digit(d)] else [Digit(d / 10), Digit(d % 10)]
  {
    if d >= 10 { assert Decimal(d / 10) == [Digit(d / 10)]; }
  }

  lemma HeadingLineReads(d: nat, name: string)
    requires 1 <= d <= 20 && IsName(name)
    ensures var s := HeadingLine(d, name);
      Heading(s) == Some(d) && Trimmed(s) && OneLine(s) && IsDigit(s[0])
  {
    DecimalOfDomain(d);
    var s := HeadingLine(d, name);
    if d < 10 {
      assert s == [Digit(d), '.', ' '] + name;
    } else {
      assert s == [Digit(d / 10), Digit(d % 10), '.', ' '] + name;
    }
    assert s[|s| - 1] == name[|name| - 1];
  }

  lemma LineReads(names: seq<string>, titles: seq<string>, p: nat)
    requires Printable(names, titles) && p < 520
    ensures var l := CatalogLine(names, titles, p);
      && Trimmed(l) && OneLine(l) && l != STOP
      && Heading(l) == if p % 26 == 0 then Some(p / 26 + 1) else None
  {
    if p % 26 == 0 {
      HeadingLineReads(p / 26 + 1, names[p / 26]);
    } else {
      assert IsTitle(titles[25 * (p / 26) + p % 26 - 1]);
    }
  }

  lemma TitleAt(names: seq<string>, titles: seq<string>, k: nat)
    requires |names| == 20 && |titles| == 500 && k < 500
    ensures TitlePosition(k) < 520 && CatalogLine(names, titles, TitlePosition(k)) == titles[k]
  {
    TitlesComeBefore(k, 20, 25);
  }

  lemma HeadingPosition(d: nat)
    ensures (26 * d) % 26 == 0 && (26 * d) / 26 == d
  {
  }

  lemma HeadingAt(names: seq<string>, titles: seq<string>, d: nat)
    requires |names| == 20 && |titles| == 500 && d < 20 && IsName(names[d])
    ensures 26 * d < 520 && Heading(CatalogLine(names, titles, 26 * d)) == Some(d + 1)
  {
    HeadingPosition(d);
    HeadingLineReads(d + 1, names[d]);
  }

  lemma CatalogLinesAreACatalog(names: seq<string>, titles: seq<string>)
    requires Printable(names, titles)
    ensures IsCatalog(CatalogLines(names, titles))
  {
    var lines := CatalogLines(names, titles);
    forall d | 0 <= d < 20 ensures Heading(lines[26 * d]) == Some(d + 1) {
      HeadingAt(names, titles, d);
    }
    forall k | 0 <= k < 500 ensures TitlePosition(k) < |lines| && Heading(lines[TitlePosition(k)]).None? {
      TitleAt(names, titles, k);
      assert IsTitle(titles[k]);
    }
  }

  lemma {:induction false} NonBlankKeeps(lines: seq<string>)
    requires forall i | 0 <= i < |lines| :: lines[i] != ""
    ensures NonBlank(lines) == lines
  {
    if lines != [] {
      NonBlankKeeps(lines[..|lines| - 1]);
    }
  }

  lemma FirstHeading(name: string)
    ensures HeadingLine(1, name) == "1. " + name
  {
    DecimalOfDomain(1);
    assert Decimal(1) == "1";
    assert "1" + ". " == "1. ";
  }

  lemma FirstHeadingIsStart(names: seq<string>, titles: seq<string>)
    requires Printable(names, titles)
    ensures CatalogLine(names, titles, 0) == START
  {
    FirstHeading(names[0]);
  }

  lemma {:induction false} FirstIndex(lines: seq<string>, s: string, k: nat)
    requires k < |lines| && lines[k] == s && forall i | 0 <= i < k :: lines[i] != s
    ensures IndexOf(lines, s) == Some(k)
  {
    if k > 0 {
      FirstIndex(lines[1..], s, k - 1);
    }
  }

  lemma StopComesLast(names: seq<string>, titles: seq<string>)
    requires Printable(names, titles)
    ensures IndexOf(CatalogLines(names, titles) + [STOP], STOP) == Some(520)
  {
    var all := CatalogLines(names, titles) + [STOP];
    forall i | 0 <= i < 520 ensures all[i] != STOP { LineReads(names, titles, i); }
    FirstIndex(all, STOP, 520);
  }

  lemma BodyOfPrinted(names: seq<string>, titles: seq<string>)
    requires Printable(names, titles)
    ensures var lines := CatalogLines(names, titles); Body(lines + [STOP]) == Some(lines)
  {
    var lines := CatalogLines(names, titles);
    var all := lines + [STOP];
    FirstHeadingIsStart(names, titles);
    FirstIndex(all, START, 0);
    StopComesLast(names, titles);
    assert all[0..520] == lines;
    forall i | 0 <= i < |lines| ensures lines[i] != "" { LineReads(names, titles, i); }
    NonBlankKeeps(lines);
  }

  /** The round trip: the parsed rows are the printed titles, numbered by their positions. */
  lemma PrintedCatalogsParse(names: seq<string>, titles: seq<string>, eol: LineEnding)
    requires Printable(names, titles)
    ensures var body := Body(Lines(PrintCatalog(names, titles, eol)));
      && body.Some? && ParseBody(body.value).Parsed?
      && var features := ParseBody(body.value).features;
      && |features| == 500
      && forall k | 0 <= k < 500 ::
           features[k] == Feature(k / 25 + 1, k % 25 + 1, titles[k]) && features[k].Order() == k + 1
  {
    var lines := CatalogLines(names, titles);
    PrintedLinesAreReadBack(names, titles, eol);
    BodyOfPrinted(names, titles);
    CatalogLinesAreACatalog(names, titles);
    assert Heading(lines[26 * 0]) == Some(1);
    AcceptsExactlyCatalogs(lines);
    var features := ParseBody(lines).features;
    forall k | 0 <= k < 500
      ensures features[k] == Feature(k / 25 + 1, k % 25 + 1, titles[k]) && features[k].Order() == k + 1
    {
      assert features[k] == RowAt(lines, k);
      TitleAt(names, titles, k);
    }
  }

  lemma PrintedLinesAreReadBack(names: seq<string>, titles: seq<string>, eol: LineEnding)
    requires Printable(names, titles)
    ensures Lines(PrintCatalog(names, titles, eol)) == CatalogLines(names, titles) + [STOP]
  {
    var all := CatalogLines(names, titles) + [STOP];
    forall p | 0 <= p < |all| ensures OneLine(all[p]) && Trimmed(all[p]) {
      if p < 520 { LineReads(names, titles, p); } else { StopIsALine(); }
    }
    JoinedLinesAreReadBack(all, eol);
  }

  lemma StopIsALine()
    ensures OneLine(STOP) && Trimmed(STOP)
  {
  }
}
