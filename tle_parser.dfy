/**
 * Parsing of NORAD two-line element sets as served in the CelesTrak text
 * format: a name line followed by line 1 and line 2 of the element set.
 *
 * Strings are sequences of code points.  `str.isdigit` is taken over the
 * ASCII digits only; the epoch is kept as its year, day-of-year and the
 * digits of the day fraction (the conversion to a calendar instant is not
 * modelled).
 */
module TleParser {
  import opened Wrappers
  import opened TimeArith
  import opened SeqFacts

  /** The two-digit year pivot: `yy < 57` is 20yy, otherwise 19yy. */
  const YearPivot: nat := 57

  /** One parsed element set. */
  datatype TleBlock = TleBlock(
    name: string,
    line1: string,
    line2: string,
    noradId: nat,
    epoch: Option<Epoch>)

  /** The epoch field `YYDDD[.ffff]`: the four-digit year, the day of the year and the fraction digits. */
  datatype Epoch = Epoch(year: int, dayOfYear: nat, fraction: string)

  datatype FetchError = NoBlocksParsed

  // ---------------------------------------------------------------------
  // Characters and stripping.
  // ---------------------------------------------------------------------

  /** The characters `str.strip()` removes (Unicode whitespace). */
  predicate IsSpace(c: char)
  {
    || c == ' ' || ('\t' <= c <= '\r') || ('\U{001C}' <= c <= '\U{001F}')
    || c == '\U{0085}' || c == '\U{00A0}' || c == '\U{1680}' || ('\U{2000}' <= c <= '\U{200A}')
    || c == '\U{2028}' || c == '\U{2029}' || c == '\U{202F}' || c == '\U{205F}' || c == '\U{3000}'
  }

  /** The characters `str.splitlines()` breaks at. */
  predicate IsLineBreak(c: char)
  {
    || c == '\n' || c == '\r' || c == '\U{000B}' || c == '\U{000C}' || ('\U{001C}' <= c <= '\U{001E}')
    || c == '\U{0085}' || c == '\U{2028}' || c == '\U{2029}'
  }

  /** The two character sets the source strips: whitespace (`strip()`) and carriage returns (`strip("\r")`). */
  datatype Strippable = Whitespace | CarriageReturn

  predicate Drops(cls: Strippable, c: char)
  {
    match cls
    case Whitespace => IsSpace(c)
    case CarriageReturn => c == '\r'
  }

  predicate IsDigit(c: char)
  {
    '0' <= c <= '9'
  }

  predicate AllDigits(s: string)
  {
    forall k :: 0 <= k < |s| ==> IsDigit(s[k])
  }

  /** `str.isdigit`: non-empty and digits only. */
  predicate IsDigits(s: string)
  {
    s != [] && AllDigits(s)
  }

  predicate NoBreak(s: string)
  {
    forall k :: 0 <= k < |s| ==> !IsLineBreak(s[k])
  }

  /** `s` with its leading characters in `drop` removed. */
  function StripLeft(s: string, drop: Strippable): (r: string)
    ensures |r| <= |s|
    ensures forall k :: 0 <= k < |s| - |r| ==> Drops(drop, s[k])
    ensures r == [] || !Drops(drop, r[0])
  {
    if s != [] && Drops(drop, s[0]) then StripLeft(s[1..], drop) else s
  }

  /** `s` with its trailing characters in `drop` removed. */
  function StripRight(s: string, drop: Strippable): (r: string)
    ensures |r| <= |s|
    ensures forall k :: |r| <= k < |s| ==> Drops(drop, s[k])
    ensures r == [] || !Drops(drop, r[|r| - 1])
  {
    if s != [] && Drops(drop, s[|s| - 1]) then StripRight(s[..|s| - 1], drop) else s
  }

  /** `str.strip(chars)`: both ends stripped of the characters in `drop`. */
  function StripBy(s: string, drop: Strippable): (r: string)
    ensures r == [] || (!Drops(drop, r[0]) && !Drops(drop, r[|r| - 1]))
  {
    var l := StripLeft(s, drop);
    var r := StripRight(l, drop);
    StripRightPrefix(l, drop);
    assert r == [] || r[0] == l[0];
    r
  }

  /** `str.strip()`. */
  function Strip(s: string): string
  {
    StripBy(s, Whitespace)
  }

  /** Python's `s[a:b]` for non-negative bounds: clamped to the string. */
  function Slice(s: string, a: nat, b: nat): (r: string)
    ensures |r| <= b - a || |r| == 0
  {
    var lo := Min(a, |s|);
    var hi := Max(Min(b, |s|), lo);
    s[lo..hi]
  }

  function StartsWith(s: string, prefix: string): bool
  {
    |prefix| <= |s| && s[..|prefix|] == prefix
  }

  // ---------------------------------------------------------------------
  // Numbers.
  // ---------------------------------------------------------------------

  function Pow10(n: nat): (p: nat)
    ensures p >= 1
  {
    if n == 0 then 1 else 10 * Pow10(n - 1)
  }

  /** `int(s)` for a string of decimal digits (0 for the empty string). */
  function DecimalValue(s: string): (v: nat)
    requires AllDigits(s)
    ensures v < Pow10(|s|)
  {
    if s == [] then 0
    else DecimalValue(s[..|s| - 1]) * 10 + (s[|s| - 1] as int - '0' as int)
  }

  /** `v` written with exactly `width` digits, zero-padded (the low digits when `v` is too wide). */
  function Digits(v: nat, width: nat): (s: string)
    ensures |s| == width && AllDigits(s)
  {
    if width == 0 then []
    else Digits(v / 10, width - 1) + [('0' as int + v % 10) as char]
  }

  // ---------------------------------------------------------------------
  // Lines.
  // ---------------------------------------------------------------------

  /**
   * `text` cut at every line-break character.  `str.splitlines()` differs
   * only in empty pieces (it treats "\r\n" as one break and drops a final
   * empty piece), and the parser discards blank pieces anyway.
   */
  function Pieces(text: string): (ps: seq<string>)
    ensures |ps| >= 1
    ensures forall k :: 0 <= k < |ps| ==> NoBreak(ps[k])
  {
    if text == [] then [""]
    else
      var rest := Pieces(text[1..]);
      if IsLineBreak(text[0]) then [""] + rest
      else [[text[0]] + rest[0]] + rest[1..]
  }

  /** The comprehension keeping the non-blank pieces, each stripped of carriage returns. */
  function KeepNonBlank(ps: seq<string>): (lines: seq<string>)
    requires forall k :: 0 <= k < |ps| ==> NoBreak(ps[k])
    ensures |lines| <= |ps|
    ensures forall k :: 0 <= k < |lines| ==> Strip(lines[k]) != [] && NoBreak(lines[k])
  {
    if ps == [] then [] else KeepLine(ps[0]) + KeepNonBlank(ps[1..])
  }

  /** One piece through the comprehension: kept, stripped of carriage returns, when not blank. */
  function KeepLine(p: string): (lines: seq<string>)
    requires NoBreak(p)
    ensures lines == [] || lines == [p]
    ensures forall k :: 0 <= k < |lines| ==> Strip(lines[k]) != [] && NoBreak(lines[k])
  {
    if Strip(p) != [] then
      var line := StripBy(p, CarriageReturn);
      CarriageReturnFree(p);
      [line]
    else []
  }

  /** The lines `parse_tle_blocks` scans. */
  function NonBlankLines(text: string): (lines: seq<string>)
    ensures forall k :: 0 <= k < |lines| ==> Strip(lines[k]) != [] && NoBreak(lines[k])
  {
    KeepNonBlank(Pieces(text))
  }

  /** `"\n".join(lines)`. */
  function JoinLines(lines: seq<string>): string
  {
    if lines == [] then ""
    else if |lines| == 1 then lines[0]
    else lines[0] + "\n" + JoinLines(lines[1..])
  }

  // ---------------------------------------------------------------------
  // Fields and blocks.
  // ---------------------------------------------------------------------

  /** The catalogue number field, columns 3-7 of line 1, stripped. */
  function NoradField(line1: string): string
  {
    Strip(Slice(line1, 2, 7))
  }

  /** The epoch field, columns 19-32 of line 1, stripped. */
  function EpochField(line1: string): string
  {
    Strip(Slice(line1, 18, 32))
  }

  /** The pattern `^\d{5}(\.\d+)?$`. */
  predicate EpochPattern(s: string)
  {
    && |s| >= 5
    && AllDigits(s[..5])
    && (|s| == 5 || (s[5] == '.' && |s| >= 7 && AllDigits(s[6..])))
  }

  /** The validation and year pivot of `parse_tle_epoch` on the stripped epoch field. */
  function ParseEpochField(s: string): (r: Option<Epoch>)
    ensures r.Some? <==> EpochPattern(s)
  {
    if s == [] then None
    else if !EpochPattern(s) then None
    else
      var yy := DecimalValue(s[..2]);
      var year := if yy < YearPivot then 2000 + yy else 1900 + yy;
      Some(Epoch(year, DecimalValue(s[2..5]), if |s| == 5 then "" else s[6..]))
  }

  /** `parse_tle_epoch`. */
  function ParseTleEpoch(line1: string): Option<Epoch>
  {
    ParseEpochField(EpochField(line1))
  }

  /** The epochs `ParseEpochField` can return. */
  predicate ValidEpoch(e: Epoch)
  {
    1900 + YearPivot <= e.year < 2000 + YearPivot && e.dayOfYear < 1000 && AllDigits(e.fraction)
  }

  /** The field an epoch is written as. */
  function RenderEpoch(e: Epoch): string
  {
    Digits(e.year % 100, 2) + Digits(e.dayOfYear, 3) + (if e.fraction == [] then "" else "." + e.fraction)
  }

  /** Both element lines begin with their line numbers. */
  predicate Headed(l1: string, l2: string)
  {
    StartsWith(l1, "1 ") && StartsWith(l2, "2 ")
  }

  /** The block a name line and two element lines produce. */
  function BlockOf(name: string, l1: string, l2: string): TleBlock
    requires IsDigits(NoradField(Strip(l1)))
  {
    var line1 := Strip(l1);
    TleBlock(Strip(name), line1, Strip(l2), DecimalValue(NoradField(line1)), ParseTleEpoch(line1))
  }

  /** What the scan from the start of `lines` emits. */
  function Blocks(lines: seq<string>): (bs: seq<TleBlock>)
    decreases |lines|
  {
    if |lines| < 3 then []
    else if !Headed(Strip(lines[1]), Strip(lines[2])) then Blocks(lines[1..])
    else if !IsDigits(NoradField(Strip(lines[1]))) then Blocks(lines[3..])
    else [BlockOf(lines[0], lines[1], lines[2])] + Blocks(lines[3..])
  }

  /** How far the window at the front of `lines` moves: one line on a missing prefix, else three. */
  function Skip(lines: seq<string>): (n: nat)
    requires |lines| >= 3
    ensures n == 1 || n == 3
  {
    if !Headed(Strip(lines[1]), Strip(lines[2])) then 1 else 3
  }

  /** What the window at the front of `lines` emits: its block, or nothing. */
  function Emitted(lines: seq<string>): (bs: seq<TleBlock>)
    requires |lines| >= 3
    ensures |bs| <= 1
  {
    if Headed(Strip(lines[1]), Strip(lines[2])) && IsDigits(NoradField(Strip(lines[1])))
    then [BlockOf(lines[0], lines[1], lines[2])]
    else []
  }

  /** Every emitted block: headed lines, and the number and epoch read from its line 1. */
  ghost predicate Consistent(b: TleBlock)
  {
    && Headed(b.line1, b.line2)
    && IsDigits(NoradField(b.line1))
    && b.noradId == DecimalValue(NoradField(b.line1))
    && b.epoch == ParseTleEpoch(b.line1)
  }

  /** A block whose lines are stripped, non-blank and free of line breaks. */
  ghost predicate Printable(b: TleBlock)
  {
    && Strip(b.name) == b.name && b.name != [] && NoBreak(b.name)
    && Strip(b.line1) == b.line1 && NoBreak(b.line1)
    && Strip(b.line2) == b.line2 && NoBreak(b.line2)
    && Headed(b.line1, b.line2)
  }

  /** A block whose three lines the scan reads back as the block itself. */
  ghost predicate WellFormed(b: TleBlock)
  {
    Printable(b) && Consistent(b)
  }

  /** The three lines of each block, in order. */
  function RenderBlocks(bs: seq<TleBlock>): (lines: seq<string>)
    ensures |lines| == 3 * |bs|
  {
    if bs == [] then [] else [bs[0].name, bs[0].line1, bs[0].line2] + RenderBlocks(bs[1..])
  }

  // ---------------------------------------------------------------------
  // The source's procedures.
  // ---------------------------------------------------------------------

  /**
   * `parse_tle_blocks`: a window of three lines slides over the non-blank
   * lines, one line on a missing line-number prefix, three lines past a
   * triple with a bad catalogue number or after an emitted block.
   */
  method ParseTleBlocks(text: string) returns (out: seq<TleBlock>)
    ensures out == Blocks(NonBlankLines(text))
  {
    var lines := NonBlankLines(text);
    out := [];
    var i := 0;
    while i + 2 < |lines|
      invariant i <= |lines|
      invariant out + Blocks(lines[i..]) == Blocks(lines)
      decreases |lines| - i
    {
      var name := Strip(lines[i]);
      var l1 := Strip(lines[i + 1]);
      var l2 := Strip(lines[i + 2]);
      ScanStep(lines, i);
      if !(StartsWith(l1, "1 ") && StartsWith(l2, "2 ")) {
        i := i + 1;
        continue;
      }
      var noradRaw := Strip(Slice(l1, 2, 7));
      if !IsDigits(noradRaw) {
        i := i + 3;
        continue;
      }
      var b := TleBlock(name, l1, l2, DecimalValue(noradRaw), ParseTleEpoch(l1));
      Regroup(out, [b], Blocks(lines[i + 3..]));
      out := out + [b];
      i := i + 3;
    }
    assert out + Blocks(lines[i..]) == out + [];
  }

  /** The fetch script after parsing: no blocks is an error, otherwise at most `max(limit, 0)` of them. */
  function SelectBlocks(blocks: seq<TleBlock>, limit: int): (r: Result<seq<TleBlock>, FetchError>)
    ensures r.Failure? <==> blocks == []
    ensures r.Success? ==> |r.value| == Min(Max(limit, 0), |blocks|) && r.value == blocks[..|r.value|]
  {
    if blocks == [] then Failure(NoBlocksParsed)
    else Success(blocks[..Min(Max(limit, 0), |blocks|)])
  }

  // ---------------------------------------------------------------------
  // Lemmas.
  // ---------------------------------------------------------------------

  /** A piece between line breaks holds no carriage return, so stripping them changes nothing. */
  lemma CarriageReturnFree(s: string)
    requires NoBreak(s)
    ensures StripBy(s, CarriageReturn) == s
  {
    StripNothing(s, CarriageReturn);
  }

  /** Stripping the front leaves a suffix. */
  lemma {:induction false} StripLeftSuffix(s: string, drop: Strippable)
    ensures StripLeft(s, drop) == s[|s| - |StripLeft(s, drop)|..]
  {
    if s != [] && Drops(drop, s[0]) {
      StripLeftSuffix(s[1..], drop);
    }
  }

  /** Stripping the back leaves a prefix. */
  lemma {:induction false} StripRightPrefix(s: string, drop: Strippable)
    ensures StripRight(s, drop) == s[..|StripRight(s, drop)|]
  {
    if s != [] && Drops(drop, s[|s| - 1]) {
      StripRightPrefix(s[..|s| - 1], drop);
    }
  }

  /** Stripping characters a string does not contain changes nothing. */
  lemma StripNothing(s: string, drop: Strippable)
    requires forall k :: 0 <= k < |s| ==> !Drops(drop, s[k])
    ensures StripBy(s, drop) == s
  {
  }

  /** A string stripped to nothing holds nothing but stripped characters, and conversely. */
  lemma StripBlank(s: string, drop: Strippable)
    ensures StripBy(s, drop) == [] <==> forall k :: 0 <= k < |s| ==> Drops(drop, s[k])
  {
    var l := StripLeft(s, drop);
    StripLeftSuffix(s, drop);
    if StripBy(s, drop) == [] {
      assert StripRight(l, drop) == [];
      forall k | 0 <= k < |s| ensures Drops(drop, s[k]) {
        if k >= |s| - |l| {
          assert s[k] == l[k - (|s| - |l|)];
        }
      }
    } else if forall k :: 0 <= k < |s| ==> Drops(drop, s[k]) {
      if l != [] {
        assert l[0] == s[|s| - |l|];
      }
    }
  }

  /** Stripping twice is stripping once. */
  lemma StripIdempotent(s: string, drop: Strippable)
    ensures StripBy(StripBy(s, drop), drop) == StripBy(s, drop)
  {
    var r := StripBy(s, drop);
    assert StripLeft(r, drop) == r;
  }

  /** The pieces of a break-free prefix glued to the first piece of the rest. */
  lemma {:induction false} PiecesPrefix(p: string, rest: string)
    requires NoBreak(p)
    ensures Pieces(p + rest) == [p + Pieces(rest)[0]] + Pieces(rest)[1..]
  {
    if p != [] {
      PiecesPrefix(p[1..], rest);
      assert (p + rest)[1..] == p[1..] + rest;
      assert [p[0]] + (p[1..] + Pieces(rest)[0]) == p + Pieces(rest)[0];
    } else {
      assert p + rest == rest && p + Pieces(rest)[0] == Pieces(rest)[0];
      assert Pieces(rest) == [Pieces(rest)[0]] + Pieces(rest)[1..];
    }
  }

  /** Joining break-free lines with "\n" and cutting at breaks gives the lines back. */
  lemma {:induction false} PiecesOfJoin(lines: seq<string>)
    requires lines != []
    requires forall k :: 0 <= k < |lines| ==> NoBreak(lines[k])
    ensures Pieces(JoinLines(lines)) == lines
  {
    if |lines| == 1 {
      PiecesPrefix(lines[0], "");
      assert lines[0] + "" == lines[0];
    } else {
      PiecesOfJoin(lines[1..]);
      var j := JoinLines(lines[1..]);
      PiecesPrefix(lines[0], "\n" + j);
      assert ("\n" + j)[1..] == j;
      assert Pieces("\n" + j) == [""] + lines[1..];
      assert lines[0] + "\n" + j == lines[0] + ("\n" + j);
      assert lines[0] + "" == lines[0];
    }
  }

  /** Non-blank break-free pieces all survive the comprehension unchanged. */
  lemma {:induction false} KeepNonBlankKeepsAll(ps: seq<string>)
    requires forall k :: 0 <= k < |ps| ==> NoBreak(ps[k]) && Strip(ps[k]) != []
    ensures KeepNonBlank(ps) == ps
  {
    if ps != [] {
      KeepNonBlankKeepsAll(ps[1..]);
      CarriageReturnFree(ps[0]);
    }
  }

  /** The text of non-blank, break-free lines joined by newlines scans as exactly those lines. */
  lemma LinesOfJoin(lines: seq<string>)
    requires forall k :: 0 <= k < |lines| ==> NoBreak(lines[k]) && Strip(lines[k]) != []
    ensures NonBlankLines(JoinLines(lines)) == lines
  {
    if lines == [] {
      assert Pieces("") == [""];
      assert StripLeft("", Whitespace) == "";
    } else {
      PiecesOfJoin(lines);
      KeepNonBlankKeepsAll(lines);
    }
  }

  /** Digits read back as the number written. */
  lemma {:induction false} DigitsValue(v: nat, width: nat)
    requires v < Pow10(width)
    ensures DecimalValue(Digits(v, width)) == v
  {
    if width > 0 {
      DigitsValue(v / 10, width - 1);
      var d := Digits(v, width);
      assert d[..width - 1] == Digits(v / 10, width - 1);
    }
  }

  /** A digit string is the writing of its value at its own width. */
  lemma {:induction false} ValueDigits(s: string)
    requires AllDigits(s)
    ensures Digits(DecimalValue(s), |s|) == s
  {
    if s != [] {
      var init := s[..|s| - 1];
      ValueDigits(init);
      var v := DecimalValue(s);
      var c := s[|s| - 1] as int - '0' as int;
      assert v / 10 == DecimalValue(init) && v % 10 == c;
    }
  }

  lemma Pow10Small()
    ensures Pow10(2) == 100 && Pow10(3) == 1000
  {
  }

  /** The pivot maps a two-digit year into 1957..2056 and keeps its last two digits. */
  lemma PivotYear(yy: nat)
    requires yy < 100
    ensures var year := if yy < YearPivot then 2000 + yy else 1900 + yy;
            1900 + YearPivot <= year < 2000 + YearPivot && year % 100 == yy
  {
  }

  /** A year in 1957..2056 is recovered from its last two digits by the pivot. */
  lemma PivotInverse(year: int)
    requires 1900 + YearPivot <= year < 2000 + YearPivot
    ensures var yy := year % 100;
            (if yy < YearPivot then 2000 + yy else 1900 + yy) == year
  {
  }

  /** The field cut into its year digits, day digits and optional fraction. */
  lemma FieldParts(s: string)
    requires EpochPattern(s)
    ensures s == s[..2] + s[2..5] + (if |s| == 5 then "" else "." + s[6..])
  {
    if |s| > 5 {
      assert s[5..] == "." + s[6..];
      assert s == s[..2] + s[2..5] + s[5..];
    } else {
      assert s == s[..2] + s[2..5];
    }
  }

  /** Parsing returns a valid epoch whose writing is the field itself. */
  lemma ParseEpochCanonical(s: string)
    requires ParseEpochField(s).Some?
    ensures ValidEpoch(ParseEpochField(s).value)
    ensures RenderEpoch(ParseEpochField(s).value) == s
  {
    var e := ParseEpochField(s).value;
    ParsedParts(s);
    FieldParts(s);
    assert RenderEpoch(e) == Digits(e.year % 100, 2) + Digits(e.dayOfYear, 3)
                             + (if e.fraction == [] then "" else "." + e.fraction);
  }

  /** The parts of a parsed field: its digits re-written give the field's digits back. */
  lemma ParsedParts(s: string)
    requires ParseEpochField(s).Some?
    ensures var e := ParseEpochField(s).value;
            && ValidEpoch(e)
            && Digits(e.year % 100, 2) == s[..2]
            && Digits(e.dayOfYear, 3) == s[2..5]
            && e.fraction == (if |s| == 5 then "" else s[6..])
            && (e.fraction == [] <==> |s| == 5)
  {
    assert s[..5][..2] == s[..2] && s[..5][2..5] == s[2..5];
    var e := ParseEpochField(s).value;
    var yy := DecimalValue(s[..2]);
    Pow10Small();
    PivotYear(yy);
    assert e.year % 100 == yy;
    ValueDigits(s[..2]);
    assert Digits(e.year % 100, 2) == s[..2];
    ValueDigits(s[2..5]);
    assert Digits(e.dayOfYear, 3) == s[2..5];
  }

  /** The written field matches the pattern and its parts are the epoch's parts. */
  lemma RenderedField(e: Epoch)
    requires ValidEpoch(e)
    ensures var s := RenderEpoch(e);
            && EpochPattern(s)
            && s[..2] == Digits(e.year % 100, 2)
            && s[2..5] == Digits(e.dayOfYear, 3)
            && (|s| == 5 <==> e.fraction == [])
            && (|s| > 5 ==> s[6..] == e.fraction)
  {
    var yy := Digits(e.year % 100, 2);
    var ddd := Digits(e.dayOfYear, 3);
    var s := RenderEpoch(e);
    if e.fraction == [] {
      assert s == yy + ddd;
    } else {
      assert s == (yy + ddd) + ("." + e.fraction);
      assert s[6..] == e.fraction;
    }
    assert s[..5] == yy + ddd;
  }

  /** A valid epoch, written and parsed, comes back unchanged (the pivot inverts `year % 100`). */
  lemma EpochRoundTrip(e: Epoch)
    requires ValidEpoch(e)
    ensures ParseEpochField(RenderEpoch(e)) == Some(e)
  {
    RenderedParts(e);
  }

  /** The parts of a written epoch read back, through the pivot, as its year, day and fraction. */
  lemma RenderedParts(e: Epoch)
    requires ValidEpoch(e)
    ensures var s := RenderEpoch(e);
            && EpochPattern(s)
            && DecimalValue(s[2..5]) == e.dayOfYear
            && (if |s| == 5 then "" else s[6..]) == e.fraction
            && (var yy := DecimalValue(s[..2]);
                (if yy < YearPivot then 2000 + yy else 1900 + yy) == e.year)
  {
    RenderedField(e);
    Pow10Small();
    DigitsValue(e.year % 100, 2);
    DigitsValue(e.dayOfYear, 3);
    PivotInverse(e.year);
  }

  /** One step of the scan, at index `i` of `lines`. */
  lemma ScanStep(lines: seq<string>, i: nat)
    requires i + 2 < |lines|
    ensures !Headed(Strip(lines[i + 1]), Strip(lines[i + 2])) ==> Blocks(lines[i..]) == Blocks(lines[i + 1..])
    ensures Headed(Strip(lines[i + 1]), Strip(lines[i + 2])) && !IsDigits(NoradField(Strip(lines[i + 1])))
            ==> Blocks(lines[i..]) == Blocks(lines[i + 3..])
    ensures Headed(Strip(lines[i + 1]), Strip(lines[i + 2])) && IsDigits(NoradField(Strip(lines[i + 1])))
            ==> Blocks(lines[i..]) == [BlockOf(lines[i], lines[i + 1], lines[i + 2])] + Blocks(lines[i + 3..])
  {
    var rest := lines[i..];
    assert rest[0] == lines[i] && rest[1] == lines[i + 1] && rest[2] == lines[i + 2];
    assert rest[1..] == lines[i + 1..] && rest[3..] == lines[i + 3..];
  }

  /** The scan is the front window's output followed by the scan from where the window moves. */
  lemma BlocksStep(lines: seq<string>)
    requires |lines| >= 3
    ensures Blocks(lines) == Emitted(lines) + Blocks(lines[Skip(lines)..])
  {
    if Emitted(lines) == [] {
      assert Emitted(lines) + Blocks(lines[Skip(lines)..]) == Blocks(lines[Skip(lines)..]);
    }
  }

  /** The block a window emits carries the number and epoch of its line 1. */
  lemma EmittedConsistent(lines: seq<string>)
    requires |lines| >= 3
    ensures forall k :: 0 <= k < |Emitted(lines)| ==> Consistent(Emitted(lines)[k])
  {
  }

  /** Every emitted block is headed "1 " / "2 " and carries the number and epoch of its line 1. */
  lemma {:induction false} BlocksConsistent(lines: seq<string>)
    ensures forall k :: 0 <= k < |Blocks(lines)| ==> Consistent(Blocks(lines)[k])
    decreases |lines|
  {
    if |lines| >= 3 {
      BlocksConsistent(lines[Skip(lines)..]);
      BlocksStep(lines);
      EmittedConsistent(lines);
      AppendConsistent(Emitted(lines), Blocks(lines[Skip(lines)..]));
    }
  }

  lemma AppendConsistent(a: seq<TleBlock>, b: seq<TleBlock>)
    requires forall k :: 0 <= k < |a| ==> Consistent(a[k])
    requires forall k :: 0 <= k < |b| ==> Consistent(b[k])
    ensures forall k :: 0 <= k < |a + b| ==> Consistent((a + b)[k])
  {
    forall k | 0 <= k < |a + b| ensures Consistent((a + b)[k]) {
      if k >= |a| {
        assert (a + b)[k] == b[k - |a|];
      }
    }
  }

  /** The catalogue number has at most five digits. */
  lemma NoradBound(b: TleBlock)
    requires Consistent(b)
    ensures b.noradId < 100000
  {
    StripShorter(Slice(b.line1, 2, 7), Whitespace);
    PowMonotone(|NoradField(b.line1)|, 5);
  }

  lemma StripShorter(s: string, drop: Strippable)
    ensures |StripBy(s, drop)| <= |s|
  {
  }

  lemma {:induction false} PowMonotone(a: nat, b: nat)
    requires a <= b
    ensures Pow10(a) <= Pow10(b)
  {
    if a < b {
      PowMonotone(a, b - 1);
    }
  }

  /** Lines `i` to `i + 2` of `lines` form a window that emits `b`. */
  ghost predicate WindowAt(lines: seq<string>, i: nat, b: TleBlock)
  {
    && i + 2 < |lines|
    && Headed(Strip(lines[i + 1]), Strip(lines[i + 2]))
    && IsDigits(NoradField(Strip(lines[i + 1])))
    && b == BlockOf(lines[i], lines[i + 1], lines[i + 2])
  }

  /** Successive windows do not share a line. */
  ghost predicate Apart(idx: seq<nat>)
  {
    forall k :: 0 <= k < |idx| - 1 ==> idx[k] + 3 <= idx[k + 1]
  }

  /** Block `k` of `bs` is read from the window at line `idx[k]` of `lines`, in input order. */
  ghost predicate ReadFrom(lines: seq<string>, bs: seq<TleBlock>, idx: seq<nat>)
  {
    && |idx| == |bs|
    && (forall k :: 0 <= k < |idx| ==> WindowAt(lines, idx[k], bs[k]))
    && Apart(idx)
  }

  /** The blocks come from consecutive triples of lines, in input order and without sharing a line. */
  lemma {:induction false} BlocksInOrder(lines: seq<string>) returns (idx: seq<nat>)
    ensures ReadFrom(lines, Blocks(lines), idx)
    decreases |lines|
  {
    if |lines| < 3 {
      idx := [];
    } else {
      var n := Skip(lines);
      var tail := BlocksInOrder(lines[n..]);
      BlocksStep(lines);
      ReadFromShift(lines, n, Blocks(lines[n..]), tail);
      idx := ReadFromFront(lines, n, Blocks(lines[n..]), ShiftAll(tail, n));
    }
  }

  function ShiftAll(idx: seq<nat>, d: nat): (r: seq<nat>)
    ensures |r| == |idx|
    ensures forall k :: 0 <= k < |idx| ==> r[k] == idx[k] + d
  {
    seq(|idx|, k requires 0 <= k < |idx| => idx[k] + d)
  }

  /** A window of a suffix is a window of the whole, moved by the suffix's offset. */
  lemma WindowShift(lines: seq<string>, n: nat, i: nat, b: TleBlock)
    requires n <= |lines| && WindowAt(lines[n..], i, b)
    ensures WindowAt(lines, i + n, b)
  {
    assert lines[n..][i] == lines[i + n];
    assert lines[n..][i + 1] == lines[i + n + 1];
    assert lines[n..][i + 2] == lines[i + n + 2];
  }

  /** Windows read from a suffix are windows of the whole, moved by the suffix's offset. */
  lemma ReadFromShift(lines: seq<string>, n: nat, bs: seq<TleBlock>, idx: seq<nat>)
    requires n <= |lines| && ReadFrom(lines[n..], bs, idx)
    ensures ReadFrom(lines, bs, ShiftAll(idx, n))
    ensures forall k :: 0 <= k < |idx| ==> ShiftAll(idx, n)[k] >= n
  {
    var sh := ShiftAll(idx, n);
    forall k | 0 <= k < |idx|
      ensures WindowAt(lines, sh[k], bs[k])
    {
      WindowShift(lines, n, idx[k], bs[k]);
    }
    assert Apart(sh);
  }

  /** The block the front window emits is read from line 0. */
  lemma FrontWindow(lines: seq<string>)
    requires |lines| >= 3 && Emitted(lines) != []
    ensures WindowAt(lines, 0, Emitted(lines)[0]) && Skip(lines) == 3
  {
  }

  /** Putting the front window's output before the windows read after it. */
  lemma ReadFromFront(lines: seq<string>, n: nat, bs: seq<TleBlock>, idx: seq<nat>) returns (all: seq<nat>)
    requires |lines| >= 3 && n == Skip(lines)
    requires ReadFrom(lines, bs, idx)
    requires forall k :: 0 <= k < |idx| ==> idx[k] >= n
    ensures ReadFrom(lines, Emitted(lines) + bs, all)
  {
    if Emitted(lines) == [] {
      all := idx;
      assert Emitted(lines) + bs == bs;
    } else {
      FrontWindow(lines);
      all := [0] + idx;
      ReadFromCons(lines, Emitted(lines)[0], bs, idx);
      assert Emitted(lines) == [Emitted(lines)[0]];
    }
  }

  /** A window at line 0 in front of windows from line 3 on. */
  lemma ReadFromCons(lines: seq<string>, b: TleBlock, bs: seq<TleBlock>, idx: seq<nat>)
    requires WindowAt(lines, 0, b) && ReadFrom(lines, bs, idx)
    requires forall k :: 0 <= k < |idx| ==> idx[k] >= 3
    ensures ReadFrom(lines, [b] + bs, [0] + idx)
  {
    WindowsCons(lines, b, bs, idx);
    ApartCons(idx);
  }

  lemma WindowsCons(lines: seq<string>, b: TleBlock, bs: seq<TleBlock>, idx: seq<nat>)
    requires WindowAt(lines, 0, b) && |idx| == |bs|
    requires forall k :: 0 <= k < |idx| ==> WindowAt(lines, idx[k], bs[k])
    ensures forall k :: 0 <= k < |idx| + 1 ==> WindowAt(lines, ([0] + idx)[k], ([b] + bs)[k])
  {
    forall k | 0 <= k < |idx| + 1
      ensures WindowAt(lines, ([0] + idx)[k], ([b] + bs)[k])
    {
      ConsAt(b, bs, idx, k);
    }
  }

  lemma ConsAt(b: TleBlock, bs: seq<TleBlock>, idx: seq<nat>, k: nat)
    requires |idx| == |bs| && k < |idx| + 1
    ensures k == 0 ==> ([0] + idx)[k] == 0 && ([b] + bs)[k] == b
    ensures k > 0 ==> ([0] + idx)[k] == idx[k - 1] && ([b] + bs)[k] == bs[k - 1]
  {
  }

  lemma ApartCons(idx: seq<nat>)
    requires Apart(idx)
    requires forall k :: 0 <= k < |idx| ==> idx[k] >= 3
    ensures Apart([0] + idx)
  {
    var all := [0] + idx;
    forall k | 0 <= k < |all| - 1
      ensures all[k] + 3 <= all[k + 1]
    {
      if k > 0 {
        assert all[k] == idx[k - 1] && all[k + 1] == idx[k];
      }
    }
  }

  /** The first three lines of a rendering are the first block's, and the rest renders the rest. */
  lemma RenderFront(bs: seq<TleBlock>)
    requires bs != [] && WellFormed(bs[0])
    ensures var lines := RenderBlocks(bs);
            && Skip(lines) == 3
            && Emitted(lines) == [bs[0]]
            && lines[3..] == RenderBlocks(bs[1..])
  {
    var lines := RenderBlocks(bs);
    var b := bs[0];
    assert lines[0] == b.name && lines[1] == b.line1 && lines[2] == b.line2;
    assert lines[3..] == RenderBlocks(bs[1..]);
    assert BlockOf(b.name, b.line1, b.line2) == b;
  }

  /** Rendering well-formed blocks as lines and scanning them gives the blocks back. */
  lemma {:induction false} RenderRoundTrip(bs: seq<TleBlock>)
    requires forall k :: 0 <= k < |bs| ==> WellFormed(bs[k])
    ensures Blocks(RenderBlocks(bs)) == bs
  {
    if bs != [] {
      RenderRoundTrip(bs[1..]);
      RenderFront(bs);
      BlocksStep(RenderBlocks(bs));
      HeadTail(bs);
    }
  }

  /** Each rendered line is break-free and non-blank. */
  lemma {:induction false} RenderedLine(bs: seq<TleBlock>, k: nat)
    requires forall j :: 0 <= j < |bs| ==> Printable(bs[j])
    requires k < |RenderBlocks(bs)|
    ensures NoBreak(RenderBlocks(bs)[k]) && Strip(RenderBlocks(bs)[k]) != []
  {
    var lines := RenderBlocks(bs);
    if k >= 3 {
      RenderedLine(bs[1..], k - 3);
      assert lines[k] == RenderBlocks(bs[1..])[k - 3];
    } else {
      var b := bs[0];
      assert lines[0] == b.name && lines[1] == b.line1 && lines[2] == b.line2;
      assert b.line1[0] == '1' && b.line2[0] == '2';
    }
  }

  /** The text of well-formed blocks, one line each, parses back to the blocks. */
  lemma TextRoundTrip(bs: seq<TleBlock>)
    requires forall k :: 0 <= k < |bs| ==> WellFormed(bs[k])
    ensures Blocks(NonBlankLines(JoinLines(RenderBlocks(bs)))) == bs
  {
    var lines := RenderBlocks(bs);
    forall k | 0 <= k < |lines|
      ensures NoBreak(lines[k]) && Strip(lines[k]) != []
    {
      RenderedLine(bs, k);
    }
    LinesOfJoin(lines);
    RenderRoundTrip(bs);
  }

  /** The epoch column "24001.50000000" is noon on day 1 of 2024: two-digit year 24 falls below the pivot. */
  lemma EpochExample()
    ensures ParseEpochField("24001.50000000") == Some(Epoch(2024, 1, "50000000"))
  {
    var s := "24001.50000000";
    assert s[..2] == "24" && s[2..5] == "001" && s[6..] == "50000000";
    assert DecimalValue("24") == 24;
    assert DecimalValue("001") == 1;
  }
}
