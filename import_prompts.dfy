/**
 * `import_prompts_from_file`: each non-blank line of a text file becomes one
 * row of the Prompts table, in file order. A line is either
 * `category | prompt text` (split at the first `|`) or just the prompt text,
 * which then goes under the category "General".
 */
module PromptImport {
  import opened Wrappers
  import opened PyText

  /** The two columns the import fills in a Prompts row. */
  datatype PromptEntry = PromptEntry(text: string, category: string)

  /** The category of a line that names none. */
  const GENERAL := "General"

  /** The separator between category and prompt text. */
  const BAR := "|"

  /** The entry for a line already stripped and not empty. */
  function SplitEntry(line: string): PromptEntry
  {
    if Contains(line, BAR) then
      var parts := SplitOnce(line, BAR);
      PromptEntry(Strip(parts[1]), Strip(parts[0]))
    else PromptEntry(line, GENERAL)
  }

  /** One line of the file: nothing for a blank line, else its entry. */
  function ParseLine(raw: string): Option<PromptEntry>
  {
    var line := Strip(raw);
    if line == [] then None else Some(SplitEntry(line))
  }

  /** The rows one line contributes. */
  function Parsed(raw: string): seq<PromptEntry>
  {
    match ParseLine(raw)
    case None => []
    case Some(e) => [e]
  }

  /** The rows the whole file contributes, in file order. */
  function ParseLines(lines: seq<string>): seq<PromptEntry>
  {
    if lines == [] then [] else ParseLines(lines[..|lines| - 1]) + Parsed(lines[|lines| - 1])
  }

  /** How many lines of the file hold something other than whitespace. */
  function CountNonBlank(lines: seq<string>): nat
  {
    if lines == [] then 0
    else CountNonBlank(lines[..|lines| - 1]) + (if AllSpace(lines[|lines| - 1]) then 0 else 1)
  }

  /** The line format the import reads, written back: `category|text`. */
  function FormatLine(e: PromptEntry): string
  {
    e.category + BAR + e.text
  }

  /** An entry with no surrounding whitespace in either column and no `|` in its category. */
  predicate Clean(e: PromptEntry)
  {
    Strip(e.text) == e.text && Strip(e.category) == e.category && '|' !in e.category
  }

  /** A line yields no entry exactly when it is blank. */
  lemma BlankLineSkipped(raw: string)
    ensures ParseLine(raw).None? <==> AllSpace(raw)
  {
    StripEmptyIffBlank(raw);
  }

  /**
   * The stripped line is split at its first `|`: the category is what comes
   * before it and the text is everything after it, itself possibly holding
   * further `|` characters; both are stripped.
   */
  lemma SplitAtFirstBar(raw: string, category: string, text: string)
    requires Strip(raw) == category + BAR + text && '|' !in category
    ensures ParseLine(raw) == Some(PromptEntry(Strip(text), Strip(category)))
  {
    var line := Strip(raw);
    var n := |category|;
    assert line[n..n + 1] == BAR;
    forall k | 0 <= k < n ensures !OccursAt(line, BAR, k) {
      assert line[k..k + 1][0] == category[k];
    }
    assert IndexOf(line, BAR) == Some(n) by {
      assert OccursAt(line, BAR, n);
    }
    assert line[..n] == category;
    assert line[n + 1..] == text;
  }

  /** A non-blank line without a `|` is filed, stripped, under "General". */
  lemma NoBarIsGeneral(raw: string)
    requires !AllSpace(raw) && '|' !in raw
    ensures ParseLine(raw) == Some(PromptEntry(Strip(raw), GENERAL))
  {
    StripEmptyIffBlank(raw);
    StripKeepsAbsent(raw, '|');
    ContainsChar(Strip(raw), '|');
  }

  /** Every entry has both columns stripped and a category free of `|`. */
  lemma EntryClean(raw: string)
    requires ParseLine(raw).Some?
    ensures Clean(ParseLine(raw).value)
  {
    var line := Strip(raw);
    var e := ParseLine(raw).value;
    if Contains(line, BAR) {
      var parts := SplitOnce(line, BAR);
      StripIdempotent(parts[0]);
      StripIdempotent(parts[1]);
      ContainsChar(parts[0], '|');
      StripKeepsAbsent(parts[0], '|');
    } else {
      StripIdempotent(raw);
      ContainsChar(line, '|');
      assert GENERAL[0] == 'G' && GENERAL[|GENERAL| - 1] == 'l';
      StripUntrimmed(GENERAL);
    }
  }

  /** Reading back a formatted clean entry gives the entry again. */
  lemma ParseFormatted(e: PromptEntry)
    requires Clean(e)
    ensures ParseLine(FormatLine(e)) == Some(e)
  {
    var line := FormatLine(e);
    StripSpec(e.category);
    StripSpec(e.text);
    assert line[|e.category|] == '|';
    assert line[0] == (if e.category == [] then '|' else e.category[0]);
    assert line[|line| - 1] == (if e.text == [] then '|' else e.text[|e.text| - 1]);
    StripUntrimmed(line);
    SplitAtFirstBar(line, e.category, e.text);
  }

  /** Dropping the last line of a file drops that line's rows from the end. */
  lemma ParseLinesStep(lines: seq<string>, n: nat)
    requires n < |lines|
    ensures ParseLines(lines[..n + 1]) == ParseLines(lines[..n]) + Parsed(lines[n])
  {
    assert lines[..n + 1][..n] == lines[..n];
  }

  /** The file's rows are its lines' rows, in order: parsing distributes over concatenation. */
  lemma {:induction false} ParseLinesAppend(a: seq<string>, b: seq<string>)
    ensures ParseLines(a + b) == ParseLines(a) + ParseLines(b)
    decreases |b|
  {
    if b == [] {
      assert a + b == a;
    } else {
      var front := b[..|b| - 1];
      assert (a + b)[..|a + b| - 1] == a + front;
      assert (a + b)[|a + b| - 1] == b[|b| - 1];
      ParseLinesAppend(a, front);
    }
  }

  /** One row per non-blank line. */
  lemma {:induction false} ParseLinesCount(lines: seq<string>)
    ensures |ParseLines(lines)| == CountNonBlank(lines)
  {
    if lines != [] {
      ParseLinesCount(lines[..|lines| - 1]);
      BlankLineSkipped(lines[|lines| - 1]);
    }
  }

  /** Every row of the file is clean. */
  lemma {:induction false} ParseLinesClean(lines: seq<string>)
    ensures forall k :: 0 <= k < |ParseLines(lines)| ==> Clean(ParseLines(lines)[k])
  {
    if lines != [] {
      var front := lines[..|lines| - 1];
      var last := lines[|lines| - 1];
      ParseLinesClean(front);
      if ParseLine(last).Some? {
        EntryClean(last);
      }
      var rows := ParseLines(lines);
      forall k | 0 <= k < |rows| ensures Clean(rows[k]) {
        if k < |ParseLines(front)| {
          assert rows[k] == ParseLines(front)[k];
        }
      }
    }
  }

  /** The Prompts table, as far as the import writes it. */
  class PromptTable {
    var rows: seq<PromptEntry>

    constructor()
      ensures rows == []
    {
      rows := [];
    }

    /**
     * `import_prompts_from_file`: `found` says whether the file exists and
     * `lines` are its lines. A missing file inserts nothing and reports
     * nothing; otherwise every line's entry is appended in order and the
     * number of rows inserted is reported.
     */
    method ImportFromFile(found: bool, lines: seq<string>) returns (imported: Option<nat>)
      modifies this
      ensures !found ==> rows == old(rows) && imported == None
      ensures found ==> rows == old(rows) + ParseLines(lines) && imported == Some(CountNonBlank(lines))
    {
      if !found {
        return None;
      }
      var count := 0;
      for n := 0 to |lines|
        invariant rows == old(rows) + ParseLines(lines[..n])
        invariant count == |ParseLines(lines[..n])|
      {
        ParseLinesStep(lines, n);
        var line := Strip(lines[n]);
        if line == [] {
          continue;
        }
        rows := rows + [SplitEntry(line)];
        count := count + 1;
      }
      assert lines[..|lines|] == lines;
      ParseLinesCount(lines);
      imported := Some(count);
    }
  }
}
