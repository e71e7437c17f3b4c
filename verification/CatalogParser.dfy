/** The parser of the feature catalog: twenty numbered domains with twenty-five titles each, and nothing else. */
module CatalogParser {
  import opened Ordering
  import opened Tasks
  import opened Text

  // ------------------------------------------------------------------------ text

  /** `text.replace("\r\n", "\n").replace("\r", "\n")`. */
  function Normalise(s: string): string {
    if s == "" then ""
    else if s[0] == '\r' then "\n" + Normalise(if |s| > 1 && s[1] == '\n' then s[2..] else s[1..])
    else [s[0]] + Normalise(s[1..])
  }

  function Split(s: string): (r: seq<string>)
    ensures |r| >= 1
  {
    if s == "" then [""]
    else
      var rest := Split(s[1..]);
      if s[0] == '\n' then [""] + rest else [[s[0]] + rest[0]] + rest[1..]
  }

  function Stripped(lines: seq<string>): (r: seq<string>)
    ensures |r| == |lines| && forall i | 0 <= i < |lines| :: r[i] == Strip(lines[i])
  {
    seq(|lines|, i requires 0 <= i < |lines| => Strip(lines[i]))
  }

  function Lines(text: string): seq<string> { Stripped(Split(Normalise(text))) }

  predicate IsDigit(c: char) { '0' <= c <= '9' }

  function DigitValue(c: char): nat requires IsDigit(c) { c as int - '0' as int }

  /** `^(\d{1,2})\.\s+(.+)$` on a stripped line: the number of a heading. */
  function Heading(s: string): Option<nat> {
    if |s| >= 4 && IsDigit(s[0]) && s[1] == '.' && IsSpace(s[2]) then Some(DigitValue(s[0]))
    else if |s| >= 5 && IsDigit(s[0]) && IsDigit(s[1]) && s[2] == '.' && IsSpace(s[3])
    then Some(10 * DigitValue(s[0]) + DigitValue(s[1]))
    else None
  }

  /** Headings are read: one or two digits, a dot, white space and some text give that number. */
  lemma HeadingsAreRead(digits: string, rest: string)
    requires 1 <= |digits| <= 2 && (forall c | c in digits :: '0' <= c <= '9') && |rest| >= 2 && IsSpace(rest[0])
    ensures Heading(digits + "." + rest) ==
      Some(if |digits| == 1 then digits[0] as int - '0' as int
           else 10 * (digits[0] as int - '0' as int) + (digits[1] as int - '0' as int))
  {
    var s := digits + "." + rest;
    assert s[|digits|] == '.' && s[|digits| + 1] == rest[0];
    assert digits[0] in digits && digits[|digits| - 1] in digits;
  }

  /** And nothing else is a heading. */
  lemma OnlyHeadingsAreRead(s: string) returns (digits: string, rest: string)
    requires Heading(s).Some?
    ensures s == digits + "." + rest && 1 <= |digits| <= 2 && (forall c | c in digits :: '0' <= c <= '9')
    ensures |rest| >= 2 && IsSpace(rest[0])
  {
    var n := if s[1] == '.' then 1 else 2;
    digits, rest := s[..n], s[n + 1..];
  }

  function IndexOf(lines: seq<string>, s: string): (r: Option<nat>)
    ensures r.Some? ==> r.value < |lines| && lines[r.value] == s && s !in lines[..r.value]
    ensures r.None? ==> s !in lines
  {
    if lines == [] then None
    else if lines[0] == s then Some(0)
    else
      var r := IndexOf(lines[1..], s);
      if r.Some? then assert lines[..r.value + 1] == [lines[0]] + lines[1..][..r.value]; Some(r.value + 1) else None
  }

  const CORE := "Core Identity and Personality"
  const START := "1. " + CORE
  const STOP := "Advanced PET Role Ideas"

  function NonBlank(lines: seq<string>): seq<string> {
    if lines == [] then []
    else NonBlank(lines[..|lines| - 1]) + if lines[|lines| - 1] == "" then [] else [lines[|lines| - 1]]
  }

  lemma {:induction false} NonBlankConcat(lines: seq<string>, more: seq<string>)
    ensures NonBlank(lines + more) == NonBlank(lines) + NonBlank(more)
  {
    if more == [] {
      assert lines + more == lines;
    } else {
      var n := |more| - 1;
      NonBlankConcat(lines, more[..n]);
      assert (lines + more)[..|lines + more| - 1] == lines + more[..n];
    }
  }

  /** Blank lines do not matter, wherever they are, and a line that is not blank is kept. */
  lemma BlankLinesAreSkipped(lines: seq<string>, line: string, more: seq<string>)
    ensures NonBlank(lines + [line] + more) == NonBlank(lines) + (if line == "" then [] else [line]) + NonBlank(more)
  {
    NonBlankConcat(lines + [line], more);
    NonBlankConcat(lines, [line]);
    assert [line][..0] == [];
  }

  // --------------------------------------------------------------------- the rows

  /** One row of the catalog; its id and order follow from its domain and item numbers. */
  datatype Feature = Feature(domain: nat, item: nat, title: string) {
    function Id(): string { FeatureId(domain, item) }

    function Order(): int { (domain - 1) * 25 + item }
  }

  function Digit(n: nat): char requires n < 10 { ('0' as int + n) as char }

  function Decimal(n: nat): string
    decreases n
  {
    if n < 10 then [Digit(n)] else Decimal(n / 10) + [Digit(n % 10)]
  }

  function TwoDigits(n: nat): string { if n < 10 then "0" + Decimal(n) else Decimal(n) }

  function FeatureId(domain: nat, item: nat): string { "PET-" + TwoDigits(domain) + "-" + TwoDigits(item) }

  // -------------------------------------------------------------- one line at a time

  datatype Progress = Rejected | At(domain: nat, item: nat, features: seq<Feature>)

  /** What the loop does with one non-blank line. */
  function Step(s: Progress, line: string): Progress {
    if s.Rejected? then Rejected
    else
      var h := Heading(line);
      if h.Some? then
        if h.value != s.domain + 1 || (s.domain != 0 && s.item != 25) then Rejected else At(h.value, 0, s.features)
      else if s.domain == 0 then s
      else if s.domain > 20 then Rejected
      else At(s.domain, s.item + 1, s.features + [Feature(s.domain, s.item + 1, line)])
  }

  function Parse(lines: seq<string>): Progress {
    if lines == [] then At(0, 0, []) else Step(Parse(lines[..|lines| - 1]), lines[|lines| - 1])
  }

  /** The row that a complete catalog has at position k. */
  function RowAt(lines: seq<string>, k: nat): Feature
    requires TitlePosition(k) < |lines|
  {
    Feature(k / 25 + 1, k % 25 + 1, lines[TitlePosition(k)])
  }

  function TitlePosition(k: nat): nat { 26 * (k / 25) + 1 + k % 25 }

  /** `domain` consecutive headings, each but the last followed by 25 titles, the last by `item` of them. */
  ghost predicate Shape(lines: seq<string>, domain: nat, item: nat) {
    && domain >= 1 && item <= 25 && |lines| == 26 * (domain - 1) + 1 + item
    && (forall d | 0 <= d < domain :: Heading(lines[26 * d]) == Some(d + 1))
    && (forall k | 0 <= k < 25 * (domain - 1) + item :: Heading(lines[TitlePosition(k)]).None?)
  }

  ghost predicate HasRows(lines: seq<string>, n: nat, features: seq<Feature>) {
    && |features| == n <= 500
    && forall k | 0 <= k < n :: TitlePosition(k) < |lines| && features[k] == RowAt(lines, k)
  }

  lemma TitlePositions(k: nat, domain: nat, item: nat)
    requires domain >= 1 && item < 25 && k == 25 * (domain - 1) + item
    ensures k / 25 == domain - 1 && k % 25 == item && TitlePosition(k) == 26 * (domain - 1) + 1 + item
  {
  }

  lemma TitlesComeBefore(k: nat, domain: nat, item: nat)
    requires domain >= 1 && item <= 25 && k < 25 * (domain - 1) + item
    ensures TitlePosition(k) < 26 * (domain - 1) + 1 + item
    ensures TitlePosition(k) % 26 != 0
  {
  }

  lemma HeadingStep(lines: seq<string>, line: string, domain: nat)
    requires Shape(lines, domain, 25) && Heading(line) == Some(domain + 1)
    ensures Shape(lines + [line], domain + 1, 0)
  {
    var all := lines + [line];
    forall d | 0 <= d < domain + 1 ensures Heading(all[26 * d]) == Some(d + 1) {
      if d < domain { assert all[26 * d] == lines[26 * d]; }
    }
    forall k | 0 <= k < 25 * domain ensures TitlePosition(k) < |all| && Heading(all[TitlePosition(k)]).None? {
      TitlesComeBefore(k, domain, 25);
      assert all[TitlePosition(k)] == lines[TitlePosition(k)];
    }
  }

  lemma TitleStep(lines: seq<string>, line: string, domain: nat, item: nat)
    requires Shape(lines, domain, item) && item < 25 && Heading(line).None?
    ensures Shape(lines + [line], domain, item + 1)
  {
    var all := lines + [line];
    forall d | 0 <= d < domain ensures Heading(all[26 * d]) == Some(d + 1) {
      assert all[26 * d] == lines[26 * d];
    }
    forall k | 0 <= k < 25 * (domain - 1) + item + 1 ensures TitlePosition(k) < |all| && Heading(all[TitlePosition(k)]).None? {
      if k < 25 * (domain - 1) + item {
        TitlesComeBefore(k, domain, item);
        assert all[TitlePosition(k)] == lines[TitlePosition(k)];
      } else {
        TitlePositions(k, domain, item);
      }
    }
  }

  lemma RowsGrow(lines: seq<string>, line: string, n: nat, features: seq<Feature>)
    requires HasRows(lines, n, features)
    ensures HasRows(lines + [line], n, features)
  {
    forall k | 0 <= k < n ensures TitlePosition(k) < |lines + [line]| && features[k] == RowAt(lines + [line], k) {
      assert (lines + [line])[TitlePosition(k)] == lines[TitlePosition(k)];
    }
  }

  lemma RowsExtend(lines: seq<string>, line: string, features: seq<Feature>, domain: nat, item: nat)
    requires 1 <= domain <= 20 && item < 25 && |lines| == 26 * (domain - 1) + 1 + item
    requires HasRows(lines, 25 * (domain - 1) + item, features)
    ensures HasRows(lines + [line], 25 * (domain - 1) + item + 1, features + [Feature(domain, item + 1, line)])
  {
    var n := 25 * (domain - 1) + item;
    RowsGrow(lines, line, n, features);
    TitlePositions(n, domain, item);
    assert (lines + [line])[TitlePosition(n)] == line;
  }

  /** Inside or at the end of a block of at most 25 titles, the lines so far have the right shape and rows. */
  ghost predicate Good(lines: seq<string>, s: Progress) {
    s.At? ==>
      && s.domain >= 1
      && (s.item <= 25 && s.domain <= 20 ==>
            Shape(lines, s.domain, s.item) && HasRows(lines, 25 * (s.domain - 1) + s.item, s.features))
  }

  lemma HeadingIsGood(lines: seq<string>, s: Progress, line: string)
    requires lines != [] && Good(lines, s) && Heading(line).Some?
    ensures Good(lines + [line], Step(s, line))
  {
    var after := Step(s, line);
    if after.At? && after.domain <= 20 {
      HeadingStep(lines, line, s.domain);
      RowsGrow(lines, line, 25 * s.domain, s.features);
    }
  }

  lemma TitleIsGood(lines: seq<string>, s: Progress, line: string)
    requires lines != [] && Good(lines, s) && Heading(line).None?
    ensures Good(lines + [line], Step(s, line))
  {
    var after := Step(s, line);
    if after.At? && after.item <= 25 {
      TitleStep(lines, line, s.domain, s.item);
      RowsExtend(lines, line, s.features, s.domain, s.item);
    }
  }

  /** Soundness: whatever the loop has accepted has the shape of a catalog so far. */
  lemma {:induction false} ParsedLinesHaveTheShape(lines: seq<string>)
    requires lines != [] && Heading(lines[0]) == Some(1)
    ensures Good(lines, Parse(lines))
  {
    var n := |lines| - 1;
    assert lines == lines[..n] + [lines[n]];
    if n == 0 {
      assert Parse(lines[..0]) == At(0, 0, []);
    } else {
      ParsedLinesHaveTheShape(lines[..n]);
      if Heading(lines[n]).Some? {
        HeadingIsGood(lines[..n], Parse(lines[..n]), lines[n]);
      } else {
        TitleIsGood(lines[..n], Parse(lines[..n]), lines[n]);
      }
    }
  }

  /** Completeness: lines of the right shape are all accepted. */
  lemma {:induction false} ShapeIsParsed(lines: seq<string>, domain: nat, item: nat)
    requires Shape(lines, domain, item) && domain <= 20
    ensures var s := Parse(lines); s.At? && s.domain == domain && s.item == item
    decreases |lines|
  {
    var n := |lines| - 1;
    var init := lines[..n];
    if item == 0 {
      assert lines[26 * (domain - 1)] == lines[n];
      if domain > 1 {
        assert Shape(init, domain - 1, 25) by {
          forall d | 0 <= d < domain - 1 ensures Heading(init[26 * d]) == Some(d + 1) { assert init[26 * d] == lines[26 * d]; }
          forall k | 0 <= k < 25 * (domain - 1) ensures TitlePosition(k) < |init| && Heading(init[TitlePosition(k)]).None? {
            TitlesComeBefore(k, domain - 1, 25);
            assert init[TitlePosition(k)] == lines[TitlePosition(k)];
          }
        }
        ShapeIsParsed(init, domain - 1, 25);
      }
    } else {
      assert Shape(init, domain, item - 1) by {
        forall d | 0 <= d < domain ensures Heading(init[26 * d]) == Some(d + 1) { assert init[26 * d] == lines[26 * d]; }
        forall k | 0 <= k < 25 * (domain - 1) + item - 1 ensures TitlePosition(k) < |init| && Heading(init[TitlePosition(k)]).None? {
          TitlesComeBefore(k, domain, item - 1);
          assert init[TitlePosition(k)] == lines[TitlePosition(k)];
        }
      }
      ShapeIsParsed(init, domain, item - 1);
      TitlePositions(25 * (domain - 1) + item - 1, domain, item - 1);
    }
  }

  // ------------------------------------------------------------------- the whole parser

  datatype Result = Parsed(features: seq<Feature>) | ParseError

  /** The lines that the parser looks at: from the first START line up to the first STOP line. */
  function Body(lines: seq<string>): Option<seq<string>> {
    var start, stop := IndexOf(lines, START), IndexOf(lines, STOP);
    if start.None? || stop.None? then None
    else if stop.value < start.value then Some([])
    else Some(NonBlank(lines[start.value..stop.value]))
  }

  /** A text has a body exactly if it holds both of these lines. */
  lemma BodiesAreBetween(lines: seq<string>)
    ensures Body(lines).Some? <==> "1. Core Identity and Personality" in lines && "Advanced PET Role Ideas" in lines
  {
    assert START == "1. Core Identity and Personality";
    var start, stop := IndexOf(lines, START), IndexOf(lines, STOP);
    assert start.Some? <==> START in lines;
    assert stop.Some? <==> STOP in lines;
  }

  /** A complete catalog: 20 consecutive headings with exactly 25 titles after each. */
  ghost predicate IsCatalog(body: seq<string>) { Shape(body, 20, 25) }

  lemma {:induction false} NonBlankStarts(lines: seq<string>)
    requires lines != [] && lines[0] != ""
    ensures NonBlank(lines) != [] && NonBlank(lines)[0] == lines[0]
  {
    var n := |lines| - 1;
    if n == 0 {
      assert lines[..0] == [];
    } else {
      NonBlankStarts(lines[..n]);
    }
  }

  lemma BodyStartsWithTheFirstHeading(lines: seq<string>)
    requires Body(lines).Some? && Body(lines).value != []
    ensures Heading(Body(lines).value[0]) == Some(1)
  {
    var start, stop := IndexOf(lines, START).value, IndexOf(lines, STOP).value;
    assert START[0] != STOP[0] && lines[start] == START && lines[stop] == STOP;
    NonBlankStarts(lines[start..stop]);
  }

  /** Ids of distinct rows differ, so the parser's last check never fires. */
  lemma TwoDigitsDiffer(a: nat, b: nat)
    requires a < 100 && b < 100 && TwoDigits(a) == TwoDigits(b)
    ensures a == b && |TwoDigits(a)| == 2
  {
    DecimalOfTwo(a);
    DecimalOfTwo(b);
    assert TwoDigits(a)[0] == TwoDigits(b)[0] && TwoDigits(a)[1] == TwoDigits(b)[1];
  }

  lemma DecimalOfTwo(a: nat)
    requires a < 100
    ensures TwoDigits(a) == [Digit(a / 10), Digit(a % 10)]
  {
    if a >= 10 { assert Decimal(a / 10) == [Digit(a / 10)]; }
  }

  /** An id prints the domain and the item with two digits each. */
  lemma IdsMean(f: Feature)
    requires f.domain < 100 && f.item < 100
    ensures f.Id() == "PET-" + [Digit(f.domain / 10), Digit(f.domain % 10)] + "-" + [Digit(f.item / 10), Digit(f.item % 10)]
    ensures forall n: nat | n < 10 :: Digit(n) == "0123456789"[n]
  {
    DecimalOfTwo(f.domain);
    DecimalOfTwo(f.item);
  }

  lemma IdsDiffer(d: nat, i: nat, e: nat, j: nat)
    requires d < 100 && i < 100 && e < 100 && j < 100 && FeatureId(d, i) == FeatureId(e, j)
    ensures d == e && i == j
  {
    DecimalOfTwo(d);
    DecimalOfTwo(e);
    DecimalOfTwo(i);
    DecimalOfTwo(j);
    var a, b := FeatureId(d, i), FeatureId(e, j);
    assert a[4..6] == TwoDigits(d) && b[4..6] == TwoDigits(e);
    assert a[7..9] == TwoDigits(i) && b[7..9] == TwoDigits(j);
    TwoDigitsDiffer(d, e);
    TwoDigitsDiffer(i, j);
  }

  function Keys(features: seq<Feature>): seq<(nat, nat)> {
    seq(|features|, k requires 0 <= k < |features| => (features[k].domain, features[k].item))
  }

  function Printed(features: seq<Feature>): seq<string> {
    seq(|features|, k requires 0 <= k < |features| => features[k].Id())
  }

  lemma PositionsDiffer(k: nat, n: nat)
    requires k < n < 500
    ensures (k / 25 + 1, k % 25 + 1) != (n / 25 + 1, n % 25 + 1)
    ensures FeatureId(k / 25 + 1, k % 25 + 1) != FeatureId(n / 25 + 1, n % 25 + 1)
  {
    if FeatureId(k / 25 + 1, k % 25 + 1) == FeatureId(n / 25 + 1, n % 25 + 1) {
      IdsDiffer(k / 25 + 1, k % 25 + 1, n / 25 + 1, n % 25 + 1);
    }
  }

  lemma RowKeys(lines: seq<string>, features: seq<Feature>, k: nat)
    requires HasRows(lines, 500, features) && k < 500
    ensures Keys(features)[k] == (k / 25 + 1, k % 25 + 1) && Printed(features)[k] == FeatureId(k / 25 + 1, k % 25 + 1)
  {
  }

  lemma RowsDiffer(lines: seq<string>, features: seq<Feature>, k: nat, n: nat)
    requires HasRows(lines, 500, features) && k < n < 500
    ensures Keys(features)[k] != Keys(features)[n] && Printed(features)[k] != Printed(features)[n]
  {
    RowKeys(lines, features, k);
    RowKeys(lines, features, n);
    PositionsDiffer(k, n);
  }

  /** No two rows share an id or a domain/item pair, so the parser's last check never fires. */
  lemma IdsAreUnique(lines: seq<string>, features: seq<Feature>)
    requires HasRows(lines, 500, features)
    ensures |Elements(Printed(features))| == 500 && |Elements(Keys(features))| == 500
  {
    forall k: nat, n: nat | k < n < |features|
      ensures Keys(features)[k] != Keys(features)[n] && Printed(features)[k] != Printed(features)[n]
    {
      RowsDiffer(lines, features, k, n);
    }
    DistinctFillASet(Printed(features));
    DistinctFillASet(Keys(features));
  }

  /** The value of the parser: the loop over the body, then the final size and uniqueness checks. */
  function ParseBody(body: seq<string>): Result {
    var s := Parse(body);
    if s.Rejected? || s.domain != 20 || s.item != 25 || |s.features| != 500
       || |Elements(Printed(s.features))| != 500 || |Elements(Keys(s.features))| != 500
    then ParseError else Parsed(s.features)
  }

  /** A body is accepted exactly when it is a complete catalog, and then row k has its position's domain, item and title. */
  lemma AcceptsExactlyCatalogs(body: seq<string>)
    requires body != [] ==> Heading(body[0]) == Some(1)
    ensures ParseBody(body).Parsed? <==> IsCatalog(body)
    ensures ParseBody(body).Parsed? ==> HasRows(body, 500, ParseBody(body).features)
  {
    if body != [] {
      ParsedLinesHaveTheShape(body);
      if IsCatalog(body) { ShapeIsParsed(body, 20, 25); }
      var s := Parse(body);
      if s.At? && s.domain == 20 && s.item == 25 {
        IdsAreUnique(body, s.features);
      }
    }
  }

  lemma ParseAppend(seen: seq<string>, line: string)
    ensures Parse(seen + [line]) == Step(Parse(seen), line)
  {
    assert (seen + [line])[..|seen|] == seen;
  }

  lemma NonBlankStep(slice: seq<string>, k: nat)
    requires k < |slice|
    ensures NonBlank(slice[..k + 1]) == if slice[k] == "" then NonBlank(slice[..k]) else NonBlank(slice[..k]) + [slice[k]]
  {
    assert slice[..k + 1][..k] == slice[..k];
  }

  lemma RejectedAppend(seen: seq<string>, line: string)
    requires Parse(seen).Rejected?
    ensures Parse(seen + [line]).Rejected?
  {
    ParseAppend(seen, line);
  }

  lemma RejectionStep(slice: seq<string>, k: nat)
    requires k < |slice| && Parse(NonBlank(slice[..k])).Rejected?
    ensures Parse(NonBlank(slice[..k + 1])).Rejected?
  {
    NonBlankStep(slice, k);
    RejectedAppend(NonBlank(slice[..k]), slice[k]);
  }

  /** Once a line has been rejected, no later line can repair it. */
  lemma {:induction false} RejectionLasts(slice: seq<string>, k: nat)
    requires k <= |slice| && Parse(NonBlank(slice[..k])).Rejected?
    ensures Parse(NonBlank(slice)).Rejected?
    decreases |slice| - k
  {
    if k < |slice| {
      RejectionStep(slice, k);
      RejectionLasts(slice, k + 1);
    } else {
      assert slice[..k] == slice;
    }
  }

  /** The loop and the final checks, against their value. */
  method ParseSlice(slice: seq<string>) returns (r: Result)
    ensures r == ParseBody(NonBlank(slice))
  {
    var domain, item, features: seq<Feature> := 0, 0, [];
    var k := 0;
    while k < |slice|
      invariant k <= |slice|
      invariant Parse(NonBlank(slice[..k])) == At(domain, item, features)
    {
      var line := slice[k];
      NonBlankStep(slice, k);
      ParseAppend(NonBlank(slice[..k]), line);
      k := k + 1;
      if line == "" { continue; }
      var h := Heading(line);
      if h.Some? {
        if h.value != domain + 1 || (domain != 0 && item != 25) {
          RejectionLasts(slice, k);
          return ParseError;
        }
        domain, item := h.value, 0;
        continue;
      }
      if domain == 0 { continue; }
      if domain > 20 {
        RejectionLasts(slice, k);
        return ParseError;
      }
      item := item + 1;
      features := features + [Feature(domain, item, line)];
    }
    assert slice[..k] == slice;
    if domain != 20 || item != 25 || |features| != 500 { return ParseError; }
    if |Elements(Printed(features))| != 500 || |Elements(Keys(features))| != 500 { return ParseError; }
    return Parsed(features);
  }

  /** A text is accepted exactly when its body is a complete catalog; then its 500 rows are the catalog's. */
  method ParseSource(text: string) returns (r: Result)
    ensures var body := Body(Lines(text));
      && r == (if body.Some? then ParseBody(body.value) else ParseError)
      && (r.Parsed? <==> body.Some? && IsCatalog(body.value))
      && (r.Parsed? ==> HasRows(body.value, 500, r.features))
  {
    var lines := Lines(text);
    var start, stop := IndexOf(lines, START), IndexOf(lines, STOP);
    if start.None? || stop.None? { return ParseError; }
    ghost var body := Body(lines).value;
    if body != [] { BodyStartsWithTheFirstHeading(lines); }
    AcceptsExactlyCatalogs(body);
    if stop.value < start.value {
      r := ParseSlice([]);
    } else {
      r := ParseSlice(lines[start.value..stop.value]);
    }
  }
}
