/** The formatting buttons of the e-mail body editor: quoting whole lines, and wrapping a selection in markers. */
module EmailFormatting {
  import opened Text

  datatype Format = Bold | Italic | Underline | Quote
  datatype Formatted = Formatted(value: string, selectionStart: int, selectionEnd: int)

  /** Every CRLF or CR line ending becomes LF, as a textarea shows it. */
  function Normalize(s: string): string {
    if s == [] then []
    else if s[0] != '\r' then [s[0]] + Normalize(s[1..])
    else "\n" + Normalize(if |s| > 1 && s[1] == '\n' then s[2..] else s[1..])
  }

  lemma {:induction false} NormalizeRemovesReturns(s: string)
    ensures '\r' !in Normalize(s)
    decreases |s|
  {
    if s != [] {
      if s[0] != '\r' {
        NormalizeRemovesReturns(s[1..]);
      } else {
        NormalizeRemovesReturns(if |s| > 1 && s[1] == '\n' then s[2..] else s[1..]);
      }
    }
  }

  /** The text without each return that a line feed follows. */
  function WithoutPairs(s: string): string {
    if s == [] then []
    else if s[0] == '\r' && |s| > 1 && s[1] == '\n' then WithoutPairs(s[1..])
    else [s[0]] + WithoutPairs(s[1..])
  }

  function ReturnsAsBreaks(s: string): string {
    seq(|s|, i requires 0 <= i < |s| => if s[i] == '\r' then '\n' else s[i])
  }

  lemma ReturnsHead(c: char, rest: string)
    ensures ReturnsAsBreaks([c] + rest) == [if c == '\r' then '\n' else c] + ReturnsAsBreaks(rest)
  {
  }

  lemma PairDropsItsReturn(s: string)
    requires |s| > 1 && s[0] == '\r' && s[1] == '\n'
    ensures WithoutPairs(s) == "\n" + WithoutPairs(s[2..])
  {
    var rest := s[1..];
    assert rest[0] == '\n' && rest[1..] == s[2..];
    assert WithoutPairs(rest) == [rest[0]] + WithoutPairs(rest[1..]);
  }

  /** Normalizing drops the return of each CRLF, turns any other return into a line feed, and keeps all else. */
  lemma {:induction false} NormalizeKeepsAllElse(s: string)
    ensures Normalize(s) == ReturnsAsBreaks(WithoutPairs(s))
    decreases |s|
  {
    if |s| > 1 && s[0] == '\r' && s[1] == '\n' {
      NormalizeKeepsAllElse(s[2..]);
      PairDropsItsReturn(s);
      ReturnsHead('\n', WithoutPairs(s[2..]));
    } else if s != [] {
      NormalizeKeepsAllElse(s[1..]);
      ReturnsHead(s[0], WithoutPairs(s[1..]));
    }
  }

  lemma {:induction false} NormalizeKeepsNormal(s: string)
    requires '\r' !in s
    ensures Normalize(s) == s
  {
    if s != [] {
      NormalizeKeepsNormal(s[1..]);
    }
  }

  // ----- Quoting lines -----

  /** The line without its quote mark, when it has one: leading white space, a mark, and one more white space. */
  function Unquoted(line: string): Option<string> {
    if line == [] then None
    else if IsSpace(line[0]) then Unquoted(line[1..])
    else if line[0] != '>' then None
    else if |line| > 1 && IsSpace(line[1]) then Some(line[2..])
    else Some(line[1..])
  }

  predicate IsQuoted(line: string) {
    Unquoted(line).Some?
  }

  predicate AllQuoted(lines: seq<string>) {
    forall i :: 0 <= i < |lines| ==> IsQuoted(lines[i])
  }

  function QuoteLines(lines: seq<string>): (r: seq<string>)
    ensures |r| == |lines| && forall i :: 0 <= i < |lines| ==> r[i] == "> " + lines[i]
  {
    seq(|lines|, i requires 0 <= i < |lines| => "> " + lines[i])
  }

  function UnquoteLines(lines: seq<string>): (r: seq<string>)
    requires AllQuoted(lines)
    ensures |r| == |lines| && forall i :: 0 <= i < |lines| ==> r[i] == Unquoted(lines[i]).value
  {
    seq(|lines|, i requires 0 <= i < |lines| => Unquoted(lines[i]).value)
  }

  function LineStart(value: string, selectionStart: nat): nat
    requires selectionStart <= |value|
  {
    AfterLast(value, '\n', if selectionStart == 0 then (if value == [] then 0 else 1) else selectionStart)
  }

  function LineEnd(value: string, selectionEnd: nat): nat
    requires selectionEnd <= |value|
  {
    IndexOf(value, '\n', selectionEnd)
  }

  /** Slices the way the browser does: from a start past the end there is nothing. */
  function Block(value: string, selectionStart: nat, selectionEnd: nat): string
    requires selectionStart <= selectionEnd <= |value|
  {
    var start, end := LineStart(value, selectionStart), LineEnd(value, selectionEnd);
    if start <= end then value[start..end] else ""
  }

  function Toggled(block: string): string {
    var lines := Split(block, '\n');
    Join(if AllQuoted(lines) then UnquoteLines(lines) else QuoteLines(lines), '\n')
  }

  /** The text with one stretch replaced, and the replacement selected. */
  function Splice(value: string, start: nat, end: nat, replacement: string): Formatted
    requires start <= |value| && end <= |value|
  {
    Formatted(value[..start] + replacement + value[end..], start, start + |replacement|)
  }

  function ToggleQuote(value: string, selectionStart: nat, selectionEnd: nat): Formatted
    requires selectionStart <= selectionEnd <= |value|
  {
    Splice(value, LineStart(value, selectionStart), LineEnd(value, selectionEnd),
           Toggled(Block(value, selectionStart, selectionEnd)))
  }

  // ----- Wrapping a selection -----

  function Marker(format: Format): string
    requires !format.Quote?
  {
    match format
    case Bold => "**"
    case Italic => "*"
    case Underline => "++"
  }

  function WrapLine(line: string, marker: string): string {
    if line == [] then line else marker + line + marker
  }

  function WrapLines(lines: seq<string>, marker: string): (r: seq<string>)
    ensures |r| == |lines| && forall i :: 0 <= i < |lines| ==> r[i] == WrapLine(lines[i], marker)
  {
    seq(|lines|, i requires 0 <= i < |lines| => WrapLine(lines[i], marker))
  }

  function Wrap(value: string, selectionStart: nat, selectionEnd: nat, marker: string): Formatted
    requires selectionStart <= selectionEnd <= |value|
  {
    var selected := value[selectionStart..selectionEnd];
    if selected == [] then
      Formatted(value[..selectionStart] + marker + marker + value[selectionEnd..],
                selectionStart + |marker|, selectionStart + |marker|)
    else
      var lines := Split(selected, '\n');
      var replacement := Wrapped(selected, marker);
      Formatted(value[..selectionStart] + replacement + value[selectionEnd..],
                selectionStart + (if lines[0] != [] then |marker| else 0),
                selectionStart + |replacement| - (if lines[|lines| - 1] != [] then |marker| else 0))
  }

  /** Offsets index the normalized value, so normalization comes first. */
  function FormatEmailTemplateSelection(controlledValue: string, selectionStart: nat, selectionEnd: nat,
                                        format: Format): Formatted
    requires selectionStart <= selectionEnd <= |Normalize(controlledValue)|
  {
    var value := Normalize(controlledValue);
    if format == Quote then ToggleQuote(value, selectionStart, selectionEnd)
    else Wrap(value, selectionStart, selectionEnd, Marker(format))
  }

  // ----- Quoting undoes itself -----

  /**
   * A caret before a text that starts with a line break: the browser's backward search finds that very break, so
   * the block would start after it ends.
   */
  predicate CaretBeforeLeadingBreak(value: string, selectionEnd: nat) {
    value != [] && value[0] == '\n' && selectionEnd == 0
  }

  lemma BlockBounds(value: string, selectionStart: nat, selectionEnd: nat)
    requires selectionStart <= selectionEnd <= |value|
    ensures var start, end := LineStart(value, selectionStart), LineEnd(value, selectionEnd);
            && start <= |value| && selectionEnd <= end <= |value|
            && (start > 0 ==> value[start - 1] == '\n') && (end < |value| ==> value[end] == '\n')
            && (start <= end <==> !CaretBeforeLeadingBreak(value, selectionEnd))
            && (CaretBeforeLeadingBreak(value, selectionEnd) ==> start == 1 && end == 0)
  {
  }

  /** The block is that of the selected lines: no break lies between its bounds and the selection's ends. */
  lemma BlockIsTheSelectedLines(value: string, selectionStart: nat, selectionEnd: nat)
    requires selectionStart <= selectionEnd <= |value|
    ensures var start, end := LineStart(value, selectionStart), LineEnd(value, selectionEnd);
            && '\n' !in value[selectionEnd..end]
            && (if selectionStart > 0 then start <= selectionStart && '\n' !in value[start..selectionStart]
                else start == if value != [] && value[0] == '\n' then 1 else 0)
  {
  }

  /** A quote mark may follow white space, and takes one white space after it along. */
  lemma {:induction false} UnquotedInWords(space: string, rest: string)
    requires forall i :: 0 <= i < |space| ==> IsSpace(space[i])
    ensures Unquoted(space + ">" + rest) == Some(if rest != [] && IsSpace(rest[0]) then rest[1..] else rest)
  {
    var line := space + ">" + rest;
    if space == [] {
      assert line[0] == '>' && line[1..] == rest && (rest != [] ==> line[2..] == rest[1..]);
      assert rest != [] ==> line[1] == rest[0];
      SpacesAre('>');
    } else {
      assert line[0] == space[0] && line[1..] == space[1..] + ">" + rest;
      UnquotedInWords(space[1..], rest);
    }
  }

  /** A line is quoted only by a mark with nothing but white space before it. */
  lemma {:induction false} QuotedHasMark(line: string) returns (n: nat)
    requires IsQuoted(line)
    ensures n < |line| && line[n] == '>' && forall i :: 0 <= i < n ==> IsSpace(line[i])
  {
    if IsSpace(line[0]) {
      n := QuotedHasMark(line[1..]);
      n := n + 1;
      assert forall i :: 1 <= i < n ==> line[i] == line[1..][i - 1];
    } else {
      n := 0;
    }
  }

  /** What a toggle makes of each line: it loses its mark when every line has one, and gets one otherwise. */
  lemma ToggledLine(block: string, i: nat)
    requires i < |Split(block, '\n')|
    ensures var lines, toggled := Split(block, '\n'), Split(Toggled(block), '\n');
            && |toggled| == |lines|
            && toggled[i] == if forall j :: 0 <= j < |lines| ==> IsQuoted(lines[j]) then Unquoted(lines[i]).value
                             else "> " + lines[i]
  {
    var lines := Split(block, '\n');
    SplitParts(block, '\n');
    if AllQuoted(lines) {
      forall k | 0 <= k < |lines| ensures '\n' !in UnquoteLines(lines)[k] {
        UnquotedIsSuffix(lines[k]);
      }
      SplitOfJoin(UnquoteLines(lines), '\n');
    } else {
      NoBreaksInQuotes(lines);
      SplitOfJoin(QuoteLines(lines), '\n');
    }
  }

  /** The markers, by the name of the format. */
  predicate MarksWith(format: Format, m: string) {
    (format.Bold? && m == "**") || (format.Italic? && m == "*") || (format.Underline? && m == "++")
  }

  lemma FormatIsWrap(
    controlledValue: string, selectionStart: nat, selectionEnd: nat, format: Format, m: string)
    requires MarksWith(format, m)
    requires selectionStart <= selectionEnd <= |Normalize(controlledValue)|
    ensures Marker(format) == m
    ensures FormatEmailTemplateSelection(controlledValue, selectionStart, selectionEnd, format) ==
            Wrap(Normalize(controlledValue), selectionStart, selectionEnd, m)
  {
  }

  lemma WrapWithinLine(value: string, selectionStart: nat, selectionEnd: nat, m: string)
    requires selectionStart <= selectionEnd <= |value| && '\n' !in value[selectionStart..selectionEnd]
    ensures var r := Wrap(value, selectionStart, selectionEnd, m);
            var selected := value[selectionStart..selectionEnd];
            && r.value == value[..selectionStart] + m + selected + m + value[selectionEnd..]
            && r.selectionStart == selectionStart + |m| && r.selectionEnd == selectionEnd + |m|
  {
    var selected := value[selectionStart..selectionEnd];
    OneLine(selected);
    var before, after := value[..selectionStart], value[selectionEnd..];
    if selected != [] {
      assert WrapLines([selected], m) == [m + selected + m];
      assert Wrapped(selected, m) == m + selected + m;
      assert before + (m + selected + m) + after == before + m + selected + m + after;
    } else {
      assert before + m + m + after == before + m + selected + m + after;
    }
  }

  /** Two asterisks make bold, one makes italic and two plus signs underline, around a selection within a line. */
  lemma FormatByName(controlledValue: string, selectionStart: nat, selectionEnd: nat, format: Format, m: string)
    requires MarksWith(format, m)
    requires selectionStart <= selectionEnd <= |Normalize(controlledValue)|
    requires '\n' !in Normalize(controlledValue)[selectionStart..selectionEnd]
    ensures var value := Normalize(controlledValue);
            var r := FormatEmailTemplateSelection(controlledValue, selectionStart, selectionEnd, format);
            var selected := value[selectionStart..selectionEnd];
            && r.value == value[..selectionStart] + m + selected + m + value[selectionEnd..]
            && r.selectionStart == selectionStart + |m| && r.selectionEnd == selectionEnd + |m|
  {
    FormatIsWrap(controlledValue, selectionStart, selectionEnd, format, m);
    WrapWithinLine(Normalize(controlledValue), selectionStart, selectionEnd, m);
  }

  lemma OneLine(s: string)
    requires '\n' !in s
    ensures Split(s, '\n') == [s]
  {
  }

  /** Over several lines, in any format: the lines of the changed stretch, each nonempty one between its markers. */
  lemma FormatEveryLineByName(
    controlledValue: string, selectionStart: nat, selectionEnd: nat, format: Format, m: string, i: nat)
    requires MarksWith(format, m)
    requires selectionStart < selectionEnd <= |Normalize(controlledValue)|
    requires i < |Split(Normalize(controlledValue)[selectionStart..selectionEnd], '\n')|
    ensures var value := Normalize(controlledValue);
            var r := FormatEmailTemplateSelection(controlledValue, selectionStart, selectionEnd, format).value;
            var lines, end := Split(value[selectionStart..selectionEnd], '\n'), |r| - (|value| - selectionEnd);
            && selectionStart <= end <= |r|
            && r[..selectionStart] == value[..selectionStart] && r[end..] == value[selectionEnd..]
            && var changed := Split(r[selectionStart..end], '\n');
            && |changed| == |lines| && changed[i] == if lines[i] == [] then [] else m + lines[i] + m
  {
    var value := Normalize(controlledValue);
    FormatIsWrap(controlledValue, selectionStart, selectionEnd, format, m);
    MarkersGoAround(value, selectionStart, selectionEnd, format);
    EveryLineIsMarked(value, selectionStart, selectionEnd, format, i);
  }

  lemma QuotedLine(line: string)
    ensures Unquoted("> " + line) == Some(line)
  {
    var quoted := "> " + line;
    assert quoted[0] == '>' && quoted[1] == ' ' && quoted[2..] == line;
  }

  lemma QuotedLinesUnquote(lines: seq<string>)
    ensures AllQuoted(QuoteLines(lines)) && UnquoteLines(QuoteLines(lines)) == lines
  {
    forall i | 0 <= i < |lines| ensures Unquoted(QuoteLines(lines)[i]) == Some(lines[i]) {
      QuotedLine(lines[i]);
    }
  }

  /** Toggling a block that has an unquoted line, and toggling the result, gives the block back. */
  lemma ToggleTwice(block: string)
    requires !AllQuoted(Split(block, '\n'))
    ensures Toggled(Toggled(block)) == block
    ensures Toggled(block) != [] && Toggled(block)[0] == '>'
  {
    var lines := Split(block, '\n');
    SplitParts(block, '\n');
    QuotedLinesUnquote(lines);
    NoBreaksInQuotes(lines);
    SplitOfJoin(QuoteLines(lines), '\n');
    JoinOfSplit(block, '\n');
    assert QuoteLines(lines)[0][0] == '>';
  }

  lemma NoBreaksInQuotes(lines: seq<string>)
    requires forall i :: 0 <= i < |lines| ==> '\n' !in lines[i]
    ensures forall i :: 0 <= i < |lines| ==> '\n' !in QuoteLines(lines)[i]
  {
  }

  /** After a toggle, the returned selection finds the same block boundaries again. */
  lemma BoundsAfterToggle(value: string, selectionStart: nat, selectionEnd: nat)
    requires selectionStart <= selectionEnd <= |value| && !CaretBeforeLeadingBreak(value, selectionEnd)
    requires !AllQuoted(Split(Block(value, selectionStart, selectionEnd), '\n'))
    ensures var r := ToggleQuote(value, selectionStart, selectionEnd);
            && 0 <= r.selectionStart <= r.selectionEnd <= |r.value|
            && LineStart(r.value, r.selectionStart) == r.selectionStart
            && LineEnd(r.value, r.selectionEnd) == r.selectionEnd
            && Block(r.value, r.selectionStart, r.selectionEnd) == Toggled(Block(value, selectionStart, selectionEnd))
  {
    BlockBounds(value, selectionStart, selectionEnd);
    var start, end := LineStart(value, selectionStart), LineEnd(value, selectionEnd);
    var block := Block(value, selectionStart, selectionEnd);
    ToggleTwice(block);
    var r := ToggleQuote(value, selectionStart, selectionEnd);
    assert r.value[r.selectionStart] == Toggled(block)[0];
    assert start > 0 ==> r.value[start - 1] == value[start - 1];
    assert r.value[r.selectionEnd..] == value[end..];
    assert r.selectionEnd < |r.value| ==> r.value[r.selectionEnd] == r.value[r.selectionEnd..][0];
    assert r.value[r.selectionStart..r.selectionEnd] == Toggled(block);
  }

  /**
   * Quoting a block with some unquoted line and toggling again on the returned selection restores the text and
   * selects the block, if and only if the caret was not before a leading line break.
   */
  lemma QuoteTogglesBack(value: string, selectionStart: nat, selectionEnd: nat)
    requires selectionStart <= selectionEnd <= |value|
    requires !AllQuoted(Split(Block(value, selectionStart, selectionEnd), '\n'))
    ensures var once := ToggleQuote(value, selectionStart, selectionEnd);
            && 0 <= once.selectionStart <= once.selectionEnd <= |once.value|
            && var twice := ToggleQuote(once.value, once.selectionStart, once.selectionEnd);
            && (twice.value == value <==> !CaretBeforeLeadingBreak(value, selectionEnd))
            && (!CaretBeforeLeadingBreak(value, selectionEnd) ==>
                  && twice.selectionStart == LineStart(value, selectionStart)
                  && twice.selectionEnd == LineEnd(value, selectionEnd))
  {
    BlockBounds(value, selectionStart, selectionEnd);
    var once := ToggleQuote(value, selectionStart, selectionEnd);
    ToggleTwice(Block(value, selectionStart, selectionEnd));
    if CaretBeforeLeadingBreak(value, selectionEnd) {
      LeadingBreakGrows(value, selectionStart, selectionEnd);
    } else {
      ToggledBack(value, selectionStart, selectionEnd);
    }
  }

  lemma ToggledBack(value: string, selectionStart: nat, selectionEnd: nat)
    requires selectionStart <= selectionEnd <= |value| && !CaretBeforeLeadingBreak(value, selectionEnd)
    requires !AllQuoted(Split(Block(value, selectionStart, selectionEnd), '\n'))
    ensures var once := ToggleQuote(value, selectionStart, selectionEnd);
            && 0 <= once.selectionStart <= once.selectionEnd <= |once.value|
            && ToggleQuote(once.value, once.selectionStart, once.selectionEnd)
               == Formatted(value, LineStart(value, selectionStart), LineEnd(value, selectionEnd))
  {
    BlockBounds(value, selectionStart, selectionEnd);
    BoundsAfterToggle(value, selectionStart, selectionEnd);
    ToggleTwice(Block(value, selectionStart, selectionEnd));
    SpliceBack(value, LineStart(value, selectionStart), LineEnd(value, selectionEnd),
               Toggled(Block(value, selectionStart, selectionEnd)));
  }

  lemma SpliceBack(value: string, start: nat, end: nat, replacement: string)
    requires start <= end <= |value|
    ensures var spliced := Splice(value, start, end, replacement);
            && spliced.value[..start] == value[..start] && spliced.value[start + |replacement|..] == value[end..]
            && spliced.value[start..start + |replacement|] == replacement
            && Splice(spliced.value, start, start + |replacement|, value[start..end]) == Formatted(value, start, end)
            && value[..start] + value[start..end] + value[end..] == value
  {
  }

  /** With the caret before a leading break, quoting and unquoting leaves one line break too many. */
  lemma LeadingBreakGrows(value: string, selectionStart: nat, selectionEnd: nat)
    requires selectionStart <= selectionEnd <= |value| && CaretBeforeLeadingBreak(value, selectionEnd)
    ensures var once := ToggleQuote(value, selectionStart, selectionEnd);
            && once == Formatted("\n> " + value, 1, 3)
            && ToggleQuote(once.value, 1, 3).value == "\n" + value
  {
    assert value[..1] == "\n";
    EmptyBlock();
    var once := ToggleQuote(value, selectionStart, selectionEnd);
    assert once.value == "\n> " + value;
    assert once.value[3] == '\n';
    assert LineStart(once.value, 1) == 1 && LineEnd(once.value, 3) == 3;
    assert once.value[1..3] == "> ";
    assert once.value[..1] == "\n" && once.value[3..] == value;
  }

  lemma EmptyBlock()
    ensures Toggled("") == "> " && Toggled("> ") == ""
  {
    assert Split("", '\n') == [""];
    assert "> " + "" == "> ";
    assert QuoteLines([""])[0] == "> ";
    assert QuoteLines([""]) == ["> "];
    QuotedLine("");
    assert Split("> ", '\n') == ["> "];
    assert UnquoteLines(["> "]) == [""];
  }

  /**
   * The same over a controlled value with any line endings: its normalized text comes back, with the block selected,
   * if and only if the caret was not before a leading line break.
   */
  lemma QuoteTogglesBackNormalized(controlledValue: string, selectionStart: nat, selectionEnd: nat)
    requires selectionStart <= selectionEnd <= |Normalize(controlledValue)|
    requires !AllQuoted(Split(Block(Normalize(controlledValue), selectionStart, selectionEnd), '\n'))
    ensures var value := Normalize(controlledValue);
            var once := FormatEmailTemplateSelection(controlledValue, selectionStart, selectionEnd, Quote);
            && 0 <= once.selectionStart <= once.selectionEnd <= |Normalize(once.value)|
            && var twice := FormatEmailTemplateSelection(once.value, once.selectionStart, once.selectionEnd, Quote);
            && (twice.value == value <==> !CaretBeforeLeadingBreak(value, selectionEnd))
            && (!CaretBeforeLeadingBreak(value, selectionEnd) ==>
                  && twice.selectionStart == LineStart(value, selectionStart)
                  && twice.selectionEnd == LineEnd(value, selectionEnd))
  {
    var value := Normalize(controlledValue);
    NormalizeRemovesReturns(controlledValue);
    QuoteTogglesBack(value, selectionStart, selectionEnd);
    ToggleAddsNoReturns(Block(value, selectionStart, selectionEnd));
    NormalizeKeepsNormal(ToggleQuote(value, selectionStart, selectionEnd).value);
  }

  lemma ToggleAddsNoReturns(block: string)
    requires '\r' !in block && !AllQuoted(Split(block, '\n'))
    ensures '\r' !in Toggled(block)
  {
    var lines := Split(block, '\n');
    PartsWithin(block, '\n', '\r');
    JoinWithin(QuoteLines(lines), '\n', '\r');
  }

  lemma {:induction false} PartsWithin(s: string, c: char, d: char)
    requires d !in s
    ensures forall i :: 0 <= i < |Split(s, c)| ==> d !in Split(s, c)[i]
    decreases |s|
  {
    var i := IndexOf(s, c, 0);
    if i < |s| {
      PartsWithin(s[i + 1..], c, d);
    }
  }

  lemma {:induction false} JoinWithin(parts: seq<string>, c: char, d: char)
    requires c != d && forall i :: 0 <= i < |parts| ==> d !in parts[i]
    ensures d !in Join(parts, c)
  {
    if |parts| > 1 {
      JoinWithin(parts[1..], c, d);
    }
  }

  // ----- What a toggle leaves alone -----

  lemma {:induction false} UnquotedIsSuffix(line: string)
    requires IsQuoted(line)
    ensures |Unquoted(line).value| < |line| && Unquoted(line).value == line[|line| - |Unquoted(line).value|..]
  {
    if IsSpace(line[0]) {
      UnquotedIsSuffix(line[1..]);
    }
  }

  lemma ToggleKeepsLineCount(block: string)
    ensures Count(Toggled(block), '\n') == Count(block, '\n')
  {
    var lines := Split(block, '\n');
    SplitParts(block, '\n');
    JoinOfSplit(block, '\n');
    CountOfJoin(lines, '\n');
    if AllQuoted(lines) {
      forall i | 0 <= i < |lines| ensures '\n' !in UnquoteLines(lines)[i] {
        UnquotedIsSuffix(lines[i]);
      }
      CountOfJoin(UnquoteLines(lines), '\n');
    } else {
      NoBreaksInQuotes(lines);
      CountOfJoin(QuoteLines(lines), '\n');
    }
  }

  lemma SpliceKeepsTheRest(value: string, start: nat, end: nat, replacement: string)
    requires start <= end <= |value| && Count(replacement, '\n') == Count(value[start..end], '\n')
    ensures var r := Splice(value, start, end, replacement);
            && 0 <= r.selectionStart <= r.selectionEnd <= |r.value|
            && r.value[..r.selectionStart] == value[..start] && r.value[r.selectionEnd..] == value[end..]
            && Count(r.value, '\n') == Count(value, '\n')
  {
    SpliceBack(value, start, end, replacement);
    CountThree(value[..start], replacement, value[end..]);
    CountThree(value[..start], value[start..end], value[end..]);
  }

  /** A block that starts after a leading break and ends before it: the break then counts twice. */
  lemma CrossedSpliceAddsBreak(value: string, replacement: string)
    requires value != [] && value[0] == '\n' && Count(replacement, '\n') == 0
    ensures var r := Splice(value, 1, 0, replacement);
            && 0 <= r.selectionStart <= r.selectionEnd <= |r.value|
            && r.value[..r.selectionStart] == value[..1] && r.value[r.selectionEnd..] == value[0..]
            && Count(r.value, '\n') == Count(value, '\n') + 1
  {
    assert value[..1] == "\n" && value[0..] == value;
    assert Count("\n", '\n') == 1;
    CountThree(value[..1], replacement, value[0..]);
    var r := Splice(value, 1, 0, replacement);
    assert r.value[..1] == "\n" && r.value[r.selectionEnd..] == value;
  }

  /**
   * A toggle, in either direction, leaves the text before and after the block alone and keeps the number of
   * lines, if and only if the caret was not before a leading line break.
   */
  lemma ToggleKeepsTheRest(value: string, selectionStart: nat, selectionEnd: nat)
    requires selectionStart <= selectionEnd <= |value|
    ensures var r := ToggleQuote(value, selectionStart, selectionEnd);
            var start, end := LineStart(value, selectionStart), LineEnd(value, selectionEnd);
            && 0 <= r.selectionStart <= r.selectionEnd <= |r.value|
            && r.value[..r.selectionStart] == value[..start] && r.value[r.selectionEnd..] == value[end..]
            && (Count(r.value, '\n') == Count(value, '\n') <==> !CaretBeforeLeadingBreak(value, selectionEnd))
  {
    BlockBounds(value, selectionStart, selectionEnd);
    var block := Block(value, selectionStart, selectionEnd);
    ToggleKeepsLineCount(block);
    if CaretBeforeLeadingBreak(value, selectionEnd) {
      CrossedSpliceAddsBreak(value, Toggled(block));
    } else {
      SpliceKeepsTheRest(value, LineStart(value, selectionStart), LineEnd(value, selectionEnd), Toggled(block));
    }
  }

  lemma CountThree(a: string, b: string, c: string)
    ensures Count(a + b + c, '\n') == Count(a, '\n') + Count(b, '\n') + Count(c, '\n')
  {
    CountConcat(a + b, c, '\n');
    CountConcat(a, b, '\n');
  }

  // ----- Markers can be taken out again -----

  function StripLine(line: string, n: nat): string {
    if |line| < 2 * n then line else line[n..|line| - n]
  }

  function StripLines(lines: seq<string>, n: nat): (r: seq<string>)
    ensures |r| == |lines|
    ensures forall i :: 0 <= i < |lines| ==> r[i] == if lines[i] == [] then [] else StripLine(lines[i], n)
  {
    seq(|lines|, i requires 0 <= i < |lines| => if lines[i] == [] then [] else StripLine(lines[i], n))
  }

  /** The marker a line gets on either side: none when it is empty. */
  function Edge(line: string, m: string): string {
    if line == [] then "" else m
  }

  predicate Edged(s: string, before: string, after: string) {
    |before| + |after| <= |s| && before <= s && s[|s| - |after|..] == after
  }

  /** What replaces the selection. */
  function Wrapped(selected: string, m: string): string {
    Join(WrapLines(Split(selected, '\n'), m), '\n')
  }

  lemma WrapSplices(value: string, selectionStart: nat, selectionEnd: nat, m: string)
    requires selectionStart < selectionEnd <= |value|
    ensures var selected := value[selectionStart..selectionEnd];
            var lines, replacement := Split(selected, '\n'), Wrapped(selected, m);
            Wrap(value, selectionStart, selectionEnd, m) ==
            Formatted(value[..selectionStart] + replacement + value[selectionEnd..],
                      selectionStart + |Edge(lines[0], m)|,
                      selectionStart + |replacement| - |Edge(lines[|lines| - 1], m)|)
  {
  }

  /**
   * Bold, italic and underline change only the selection, put the marker around each of its nonempty lines, and
   * select all of it but the outermost markers.
   */
  lemma MarkersGoAround(value: string, selectionStart: nat, selectionEnd: nat, format: Format)
    requires selectionStart < selectionEnd <= |value| && !format.Quote?
    ensures var r := Wrap(value, selectionStart, selectionEnd, Marker(format));
            var lines := Split(value[selectionStart..selectionEnd], '\n');
            var end := |r.value| - (|value| - selectionEnd);
            && selectionStart <= r.selectionStart <= r.selectionEnd <= end <= |r.value|
            && r.value[..selectionStart] == value[..selectionStart] && r.value[end..] == value[selectionEnd..]
            && r.value[selectionStart..r.selectionStart] == Edge(lines[0], Marker(format))
            && r.value[r.selectionEnd..end] == Edge(lines[|lines| - 1], Marker(format))
  {
    var m := Marker(format);
    var selected := value[selectionStart..selectionEnd];
    var lines := Split(selected, '\n');
    var before, after, replacement := Edge(lines[0], m), Edge(lines[|lines| - 1], m), Wrapped(selected, m);
    var r := Wrap(value, selectionStart, selectionEnd, m);
    assert r == Formatted(value[..selectionStart] + replacement + value[selectionEnd..], selectionStart + |before|,
                          selectionStart + |replacement| - |after|) by {
      WrapSplices(value, selectionStart, selectionEnd, m);
    }
    assert Edged(replacement, before, after) by {
      WrappedIsEdged(selected, m);
    }
    SelectionInside(value, selectionStart, selectionEnd, replacement, before, after);
  }

  /** Taking the markers of the changed stretch out again line by line gives the selected text back. */
  lemma MarkersComeOut(value: string, selectionStart: nat, selectionEnd: nat, format: Format)
    requires selectionStart < selectionEnd <= |value| && !format.Quote?
    ensures var r := Wrap(value, selectionStart, selectionEnd, Marker(format)).value;
            var end := |r| - (|value| - selectionEnd);
            && selectionStart <= end <= |r|
            && var stripped := StripLines(Split(r[selectionStart..end], '\n'), |Marker(format)|);
               Join(stripped, '\n') == value[selectionStart..selectionEnd]
  {
    var selected := value[selectionStart..selectionEnd];
    WrappedStrips(selected, Marker(format));
    Surrounded(value, selectionStart, selectionEnd, Wrapped(selected, Marker(format)), "", "");
  }

  /** The changed stretch has the selection's lines, the nonempty ones between two markers and the empty ones as is. */
  lemma EveryLineIsMarked(value: string, selectionStart: nat, selectionEnd: nat, format: Format, i: nat)
    requires selectionStart < selectionEnd <= |value| && !format.Quote?
    requires i < |Split(value[selectionStart..selectionEnd], '\n')|
    ensures var m, line := Marker(format), Split(value[selectionStart..selectionEnd], '\n')[i];
            var r := Wrap(value, selectionStart, selectionEnd, m).value;
            var end := |r| - (|value| - selectionEnd);
            && selectionStart <= end <= |r|
            && var changed := Split(r[selectionStart..end], '\n');
            && |changed| == |Split(value[selectionStart..selectionEnd], '\n')|
            && changed[i] == if line == [] then [] else m + line + m
  {
    var selected := value[selectionStart..selectionEnd];
    WrappedSplits(selected, Marker(format));
    Surrounded(value, selectionStart, selectionEnd, Wrapped(selected, Marker(format)), "", "");
  }

  lemma WrappedSplits(selected: string, m: string)
    requires '\n' !in m
    ensures Split(Wrapped(selected, m), '\n') == WrapLines(Split(selected, '\n'), m)
  {
    var lines := Split(selected, '\n');
    SplitParts(selected, '\n');
    WrappedLines(lines, m);
    SplitOfJoin(WrapLines(lines, m), '\n');
  }

  lemma Surrounded(value: string, start: nat, end: nat, replacement: string, before: string, after: string)
    requires start <= end <= |value| && Edged(replacement, before, after)
    ensures var v := value[..start] + replacement + value[end..];
            var stop := start + |replacement|;
            && |v| - (|value| - end) == stop && v[..start] == value[..start] && v[stop..] == value[end..]
            && v[start..stop] == replacement && v[start..start + |before|] == before && v[stop - |after|..stop] == after
  {
    var v := value[..start] + replacement + value[end..];
    assert v[start..start + |replacement|] == replacement;
    assert v[start..start + |before|] == replacement[..|before|];
  }

  lemma SelectionInside(value: string, start: nat, end: nat, replacement: string, before: string, after: string)
    requires start <= end <= |value| && Edged(replacement, before, after)
    ensures var r := Formatted(value[..start] + replacement + value[end..], start + |before|,
                               start + |replacement| - |after|);
            var stop := |r.value| - (|value| - end);
            && start <= r.selectionStart <= r.selectionEnd <= stop <= |r.value|
            && r.value[..start] == value[..start] && r.value[stop..] == value[end..]
            && r.value[start..r.selectionStart] == before && r.value[r.selectionEnd..stop] == after
  {
    Surrounded(value, start, end, replacement, before, after);
  }

  lemma WrappedLines(lines: seq<string>, m: string)
    requires '\n' !in m && forall i :: 0 <= i < |lines| ==> '\n' !in lines[i]
    ensures forall i :: 0 <= i < |lines| ==> '\n' !in WrapLines(lines, m)[i]
    ensures StripLines(WrapLines(lines, m), |m|) == lines
  {
    forall i | 0 <= i < |lines| ensures StripLines(WrapLines(lines, m), |m|)[i] == lines[i] {
      if lines[i] != [] {
        assert (m + lines[i] + m)[|m|..|m| + |lines[i]|] == lines[i];
      }
    }
  }

  lemma WrappedStrips(selected: string, m: string)
    requires '\n' !in m
    ensures Join(StripLines(Split(Wrapped(selected, m), '\n'), |m|), '\n') == selected
  {
    WrappedSplits(selected, m);
    SplitParts(selected, '\n');
    WrappedLines(Split(selected, '\n'), m);
    JoinOfSplit(selected, '\n');
  }

  lemma WrappedIsEdged(selected: string, m: string)
    ensures var lines := Split(selected, '\n');
            Edged(Wrapped(selected, m), Edge(lines[0], m), Edge(lines[|lines| - 1], m))
  {
    var lines := Split(selected, '\n');
    var wrapped := WrapLines(lines, m);
    JoinEnds(wrapped, '\n');
    WrapEdges(lines[0], lines[|lines| - 1], m, Join(wrapped, '\n'));
  }

  lemma FirstEdge(first: string, m: string, s: string)
    requires WrapLine(first, m) <= s
    ensures Edge(first, m) <= s
  {
    if first != [] {
      assert s[..|m|] == WrapLine(first, m)[..|m|] == m;
    }
  }

  lemma LastEdge(last: string, m: string, s: string)
    requires var b := WrapLine(last, m); |b| <= |s| && s[|s| - |b|..] == b
    ensures |Edge(last, m)| <= |s| && s[|s| - |Edge(last, m)|..] == Edge(last, m)
  {
    var b := WrapLine(last, m);
    if last != [] {
      assert b[|b| - |m|..] == m;
      assert s[|s| - |m|..] == s[|s| - |b|..][|b| - |m|..];
    }
  }

  /** A text that starts with one wrapped line and ends with another has the markers at its ends. */
  lemma WrapEdges(first: string, last: string, m: string, s: string)
    requires var a, b := WrapLine(first, m), WrapLine(last, m);
             a <= s && |b| <= |s| && s[|s| - |b|..] == b && (|s| > |a| + |b| || (s == a && first == last))
    ensures Edged(s, Edge(first, m), Edge(last, m))
  {
    FirstEdge(first, m, s);
    LastEdge(last, m, s);
  }

  lemma {:induction false} JoinEnds(parts: seq<string>, c: char)
    requires parts != []
    ensures var s := Join(parts, c);
            && parts[0] <= s && |parts[|parts| - 1]| <= |s| && s[|s| - |parts[|parts| - 1]|..] == parts[|parts| - 1]
            && (if |parts| > 1 then |s| > |parts[0]| + |parts[|parts| - 1]| else s == parts[0])
  {
    if |parts| > 1 {
      JoinEnds(parts[1..], c);
    }
  }

  /** With nothing selected the caret stands between the two markers. */
  lemma CaretBetweenMarkers(value: string, caret: nat, format: Format)
    requires caret <= |value| && !format.Quote?
    ensures var m := Marker(format);
            var r := Wrap(value, caret, caret, m);
            && r.selectionStart == r.selectionEnd == caret + |m| <= |r.value| - |m|
            && r.value[..r.selectionStart - |m|] + r.value[r.selectionEnd + |m|..] == value
            && r.value[r.selectionStart - |m|..r.selectionStart] == m == r.value[r.selectionEnd..r.selectionEnd + |m|]
  {
  }
}
