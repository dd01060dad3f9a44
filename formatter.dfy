/**
 * The indentation formatter of `lib/formatter.ts`. Content other than JSON is split into lines;
 * every line is trimmed and indented by two spaces per open bracket, where the level drops before
 * a line that starts with a closing bracket (never below zero) and rises after a line that ends
 * with an opening one. JSON content goes through `JSON.parse` and `JSON.stringify(…, null, 2)`,
 * which are foreign and passed in as one function that yields `None` where the parse throws.
 */
module Formatter {
  import opened Wrappers
  import opened Text
  import LanguageDetector

  const IndentSize := 2

  /** A trimmed line that starts with `}`, `]` or `)`. */
  predicate Closes(trimmed: string) {
    |trimmed| > 0 && (trimmed[0] == '}' || trimmed[0] == ']' || trimmed[0] == ')')
  }

  /** A trimmed line that ends with `{`, `[` or `(`. */
  predicate Opens(trimmed: string) {
    |trimmed| > 0 && (trimmed[|trimmed| - 1] == '{' || trimmed[|trimmed| - 1] == '[' || trimmed[|trimmed| - 1] == '(')
  }

  /** The bracket tests are the `startsWith` and `endsWith` calls of the source. */
  lemma BracketTests(trimmed: string)
    ensures Closes(trimmed) <==> StartsWith(trimmed, "}") || StartsWith(trimmed, "]") || StartsWith(trimmed, ")")
    ensures Opens(trimmed) <==> EndsWith(trimmed, "{") || EndsWith(trimmed, "[") || EndsWith(trimmed, "(")
  {
    if |trimmed| > 0 {
      assert trimmed[..1] == [trimmed[0]];
      assert trimmed[|trimmed| - 1..] == [trimmed[|trimmed| - 1]];
    }
  }

  /** Every line, trimmed. */
  function Trims(lines: seq<string>): (ts: seq<string>)
    ensures |ts| == |lines| && forall i :: 0 <= i < |lines| ==> ts[i] == Trim(lines[i])
  {
    seq(|lines|, i requires 0 <= i < |lines| => Trim(lines[i]))
  }

  /** `indentLevel` when trimmed line `i` is reached, before the closing-bracket test. */
  function LevelBefore(trimmed: seq<string>, i: nat): nat
    requires i <= |trimmed|
    decreases i, 0
  {
    if i == 0 then 0
    else LineLevel(trimmed, i - 1) + (if Opens(trimmed[i - 1]) then 1 else 0)
  }

  /** `indentLevel` while trimmed line `i` is emitted: one less after a closing bracket, floored at 0. */
  function LineLevel(trimmed: seq<string>, i: nat): nat
    requires i < |trimmed|
    decreases i, 1
  {
    var before := LevelBefore(trimmed, i);
    if Closes(trimmed[i]) then (if before == 0 then 0 else before - 1) else before
  }

  /** Output line `i`: the indent, then the trimmed line. */
  function OutputLine(lines: seq<string>, i: nat): string
    requires i < |lines|
  {
    Spaces(LineLevel(Trims(lines), i) * IndentSize) + Trim(lines[i])
  }

  /** The lines `lines.map(...)` yields. */
  function FormatLines(lines: seq<string>): (out: seq<string>)
    ensures |out| == |lines|
    ensures forall i :: 0 <= i < |lines| ==> out[i] == OutputLine(lines, i)
  {
    seq(|lines|, i requires 0 <= i < |lines| => OutputLine(lines, i))
  }

  /** What `formatCode(content, language)` returns. */
  function Formatted(content: string, language: LanguageDetector.Language, reformatJson: string -> Option<string>)
    : (r: string)
    ensures IsBlank(content) ==> r == content
    ensures !IsBlank(content) && language == LanguageDetector.Json && reformatJson(content).None? ==> r == content
  {
    if IsBlank(content) then content
    else if language == LanguageDetector.Json then
      match reformatJson(content)
      case None => content
      case Some(text) => text
    else Join(FormatLines(Split(content, '\n')), '\n')
  }

  /** `formatCode(content, language)`, with the running `indentLevel` of the source. */
  method FormatCode(content: string, language: LanguageDetector.Language, reformatJson: string -> Option<string>)
    returns (r: string)
    ensures r == Formatted(content, language, reformatJson)
  {
    if IsBlank(content) {
      return content;
    }
    if language == LanguageDetector.Json {
      var parsed := reformatJson(content);
      if parsed.None? {
        return content;
      }
      return parsed.value;
    }
    var lines := Split(content, '\n');
    var formatted := IndentLines(lines);
    return Join(formatted, '\n');
  }

  /** The `lines.map(...)` loop of `formatCode`, carrying `indentLevel` from line to line. */
  method IndentLines(lines: seq<string>) returns (formatted: seq<string>)
    ensures formatted == FormatLines(lines)
  {
    ghost var trims := Trims(lines);
    var indentLevel: nat := 0;
    formatted := [];
    for i := 0 to |lines|
      invariant indentLevel == LevelBefore(trims, i)
      invariant |formatted| == i
      invariant forall j :: 0 <= j < i ==> formatted[j] == Indented(trims, j)
    {
      var trimmed := Trim(lines[i]);
      assert trimmed == trims[i];
      LineStep(trims, i);
      if Closes(trimmed) {
        indentLevel := if indentLevel - 1 > 0 then indentLevel - 1 else 0;
      }
      var indentedLine := Spaces(indentLevel * IndentSize) + trimmed;
      if Opens(trimmed) {
        indentLevel := indentLevel + 1;
      }
      formatted := formatted + [indentedLine];
    }
    IndentedLines(lines, trims, formatted);
  }

  /** Trimmed line `i` behind the indent of its level. */
  function Indented(trimmed: seq<string>, i: nat): string
    requires i < |trimmed|
  {
    Spaces(LineLevel(trimmed, i) * IndentSize) + trimmed[i]
  }

  /** The lines built from the trims of `lines` are what `FormatLines` yields. */
  lemma IndentedLines(lines: seq<string>, trims: seq<string>, formatted: seq<string>)
    requires trims == Trims(lines) && |formatted| == |lines|
    requires forall j :: 0 <= j < |lines| ==> formatted[j] == Indented(trims, j)
    ensures formatted == FormatLines(lines)
  {
  }

  /** How many of the first `i` lines end with an opening bracket. */
  function Openings(trimmed: seq<string>, i: nat): nat
    requires i <= |trimmed|
  {
    if i == 0 then 0 else Openings(trimmed, i - 1) + (if Opens(trimmed[i - 1]) then 1 else 0)
  }

  /** The indent never exceeds the number of lines so far that opened a bracket. */
  lemma {:induction false} LevelAtMostOpenings(trimmed: seq<string>, i: nat)
    requires i <= |trimmed|
    ensures LevelBefore(trimmed, i) <= Openings(trimmed, i)
  {
    if i > 0 {
      LevelAtMostOpenings(trimmed, i - 1);
    }
  }

  /**
   * One line's effect on the level: a closing line is emitted one level lower, but never below 0,
   * and an opening line raises the level of the next line by one.
   */
  lemma LineStep(trimmed: seq<string>, i: nat)
    requires i < |trimmed|
    ensures LineLevel(trimmed, i)
      == (var before := LevelBefore(trimmed, i);
          if Closes(trimmed[i]) then (if before - 1 > 0 then before - 1 else 0) else before)
    ensures LevelBefore(trimmed, i + 1) == LineLevel(trimmed, i) + (if Opens(trimmed[i]) then 1 else 0)
  {
  }

  /** Trimming an output line gives back the trimmed input line. */
  lemma OutputLineTrims(lines: seq<string>, i: nat)
    requires i < |lines|
    ensures Trim(OutputLine(lines, i)) == Trim(lines[i])
  {
    TrimAfterWhitespace(Spaces(LineLevel(Trims(lines), i) * IndentSize), lines[i]);
  }

  /** The formatter looks only at trimmed lines: lines that trim alike are formatted alike. */
  lemma FormatLinesDependOnTrimsOnly(a: seq<string>, b: seq<string>)
    requires |a| == |b|
    requires forall j :: 0 <= j < |a| ==> Trim(a[j]) == Trim(b[j])
    ensures FormatLines(a) == FormatLines(b)
  {
    assert Trims(a) == Trims(b);
  }

  /** No output line holds a newline when no input line does. */
  lemma OutputHasNoNewline(lines: seq<string>)
    requires forall k :: 0 <= k < |lines| ==> '\n' !in lines[k]
    ensures forall k :: 0 <= k < |lines| ==> '\n' !in FormatLines(lines)[k]
  {
    forall k | 0 <= k < |lines|
      ensures '\n' !in FormatLines(lines)[k]
    {
      TrimKeepsOut(lines[k], '\n');
      var pad := Spaces(LineLevel(Trims(lines), k) * IndentSize);
      assert '\n' !in pad;
      assert FormatLines(lines)[k] == pad + Trim(lines[k]);
    }
  }

  /**
   * Outside the JSON path the output has as many lines as the input, and line `i` of the output
   * is `2 * level` spaces followed by line `i` of the input, trimmed.
   */
  lemma OutputLines(content: string, language: LanguageDetector.Language, reformatJson: string -> Option<string>)
    requires !IsBlank(content) && language != LanguageDetector.Json
    ensures var lines := Split(content, '\n');
      var out := Split(Formatted(content, language, reformatJson), '\n');
      && |out| == |lines|
      && forall i :: 0 <= i < |lines| ==> out[i] == Spaces(2 * LineLevel(Trims(lines), i)) + Trim(lines[i])
  {
    var lines := Split(content, '\n');
    OutputHasNoNewline(lines);
    SplitJoin(FormatLines(lines), '\n');
  }

  /** Content that is not blank still is not blank once formatted. */
  lemma FormattedIsNotBlank(content: string, language: LanguageDetector.Language, reformatJson: string -> Option<string>)
    requires !IsBlank(content) && language != LanguageDetector.Json
    ensures !IsBlank(Formatted(content, language, reformatJson))
  {
    var lines := Split(content, '\n');
    var out := FormatLines(lines);
    BlankIffAllWhitespace(content);
    JoinSplit(content, '\n');
    if forall k :: 0 <= k < |lines| ==> AllWhitespace(lines[k]) {
      JoinAllWhitespace(lines, '\n');
      assert false;
    }
    var k :| 0 <= k < |lines| && !AllWhitespace(lines[k]);
    BlankIffAllWhitespace(lines[k]);
    OutputLineTrims(lines, k);
    BlankIffAllWhitespace(out[k]);
    JoinHoldsField(out, '\n', k);
    BlankIffAllWhitespace(Join(out, '\n'));
  }

  /** Formatting non-JSON content twice gives what formatting it once gives. */
  lemma FormatIdempotent(content: string, language: LanguageDetector.Language, reformatJson: string -> Option<string>)
    requires language != LanguageDetector.Json
    ensures var once := Formatted(content, language, reformatJson);
      Formatted(once, language, reformatJson) == once
  {
    if !IsBlank(content) {
      var lines := Split(content, '\n');
      var out := FormatLines(lines);
      OutputHasNoNewline(lines);
      SplitJoin(out, '\n');
      FormattedIsNotBlank(content, language, reformatJson);
      forall j | 0 <= j < |out|
        ensures Trim(out[j]) == Trim(lines[j])
      {
        OutputLineTrims(lines, j);
      }
      FormatLinesDependOnTrimsOnly(out, lines);
    }
  }
}
