/** The blog post renderer: a one-pass Markdown-subset block parser over the
    lines of a post, and the comma-separated tag list shown above it. */
module BlogDetail {
  import opened Text
  import opened Inline
  import opened Wrappers

  /** One rendered block. Heading text is raw; paragraph, quote and list-item
      text has been through the inline formatter; code is verbatim. Every list
      is rendered as an unordered list, whatever its markers were. */
  datatype Block =
    | Heading(level: nat, text: string)
    | Paragraph(html: string)
    | List(items: seq<string>)
    | Code(language: string, text: string)
    | Quote(html: string)
    | Rule

  /** The values the source's `inList` flag takes: `false`, `true`, `'ordered'`. */
  datatype ListMode = NotInList | InList | InOrderedList

  /** How a line outside a code block that is not a fence is classified. */
  datatype LineKind =
    | Blank
    | HeadingLine(level: nat, text: string)
    | BulletLine(item: string)
    | NumberedLine(item: string)
    | QuoteLine(text: string)
    | RuleLine
    | ParagraphLine

  /** A fence: the trimmed line starts with three backticks. */
  predicate IsFence(line: string) {
    "```" <= Trim(line)
  }

  /** The language of an opening fence: the trimmed text after the backticks. */
  function FenceLanguage(line: string): string
    requires IsFence(line)
  {
    Trim(Trim(line)[3..])
  }

  /** Length of the run of ASCII digits (`\d`) at the start of `s`. */
  function DigitRun(s: string): (n: nat)
    ensures n <= |s|
  {
    if s != [] && IsDigit(s[0]) then 1 + DigitRun(s[1..]) else 0
  }

  /** The digit run is all digits and maximal. */
  lemma {:induction false} DigitRunSpec(s: string)
    ensures var n := DigitRun(s);
            (forall i :: 0 <= i < n ==> IsDigit(s[i])) && (n == |s| || !IsDigit(s[n]))
  {
    if s != [] && IsDigit(s[0]) {
      DigitRunSpec(s[1..]);
      assert forall i :: 1 <= i < DigitRun(s) ==> s[i] == s[1..][i - 1];
    }
  }

  /** Length of the run of whitespace (`\s`) at the start of `s`. */
  function SpaceRun(s: string): (n: nat)
    ensures n <= |s|
  {
    if s != [] && IsSpace(s[0]) then 1 + SpaceRun(s[1..]) else 0
  }

  /** The whitespace run is all whitespace and maximal. */
  lemma {:induction false} SpaceRunSpec(s: string)
    ensures var n := SpaceRun(s);
            AllSpace(s[..n]) && (n == |s| || !IsSpace(s[n]))
  {
    if s != [] && IsSpace(s[0]) {
      SpaceRunSpec(s[1..]);
      assert s[..1 + SpaceRun(s[1..])] == [s[0]] + s[1..][..SpaceRun(s[1..])];
    }
  }

  /** `m` matches `^\d+\.\s+` exactly: digits, a dot, whitespace. */
  predicate IsOrderedMarker(m: string) {
    var n := DigitRun(m);
    1 <= n && n + 2 <= |m| && m[n] == '.' && AllSpace(m[n + 1..])
  }

  /** The phases of the scan for `^(\d+)\.\s+(.+)$`: in the digit run, in the whitespace
      run that began at `start`, or in the item that began at `start`. */
  datatype Phase = Digits | Spaces(start: nat) | Item(start: nat)

  function Rank(phase: Phase): nat {
    match phase
    case Digits => 2
    case Spaces(_) => 1
    case Item(_) => 0
  }

  /** `^(\d+)\.\s+(.+)$` on a trimmed line: the captured item, if the line matches. */
  function OrderedItem(t: string): Option<string> {
    Scan(t, 0, Digits)
  }

  /** The regex as a left-to-right scan from position `i` in phase `phase`. The digit and
      whitespace runs are greedy; when the whitespace runs to the end of the line, the
      regex gives its last character back to `(.+)` if it has one to spare. */
  function Scan(t: string, i: nat, phase: Phase): Option<string>
    requires i <= |t| && (phase.Digits? || phase.start <= i)
    decreases |t| - i, Rank(phase)
  {
    match phase
    case Digits =>
      if i < |t| && IsDigit(t[i]) then Scan(t, i + 1, Digits)
      else if 0 < i < |t| && t[i] == '.' then Scan(t, i + 1, Spaces(i + 1))
      else None
    case Spaces(start) =>
      if i < |t| && IsSpace(t[i]) then Scan(t, i + 1, Spaces(start))
      else if i == start then None
      else if i < |t| then Scan(t, i, Item(i))
      else if i - start >= 2 && IsDot(t[|t| - 1]) then Some(t[|t| - 1..])
      else None
    case Item(start) =>
      if i == |t| then (if start < i then Some(t[start..]) else None)
      else if IsDot(t[i]) then Scan(t, i + 1, Item(start))
      else None
  }

  /** The same regex read off the maximal runs: the digit run, a dot, the whitespace run,
      and a non-empty line-terminator-free rest (or the last character, given back by a
      whitespace run that reaches the end). */
  function OrderedItemByRuns(t: string): Option<string> {
    var n := DigitRun(t);
    if n == 0 || n == |t| || t[n] != '.' then None
    else
      var w := SpaceRun(t[n + 1..]);
      var j := n + 1 + w;
      if w == 0 then None
      else if j < |t| then (if AllDot(t[j..]) then Some(t[j..]) else None)
      else if w >= 2 && IsDot(t[|t| - 1]) then Some(t[|t| - 1..])
      else None
  }

  /** The item phase accepts exactly a line-terminator-free rest. */
  lemma {:induction false} ScanItem(t: string, start: nat, i: nat)
    requires start <= i <= |t| && AllDot(t[start..i])
    ensures Scan(t, i, Item(start)) == if start < |t| && AllDot(t[start..]) then Some(t[start..]) else None
    decreases |t| - i
  {
    if i < |t| {
      if IsDot(t[i]) {
        assert t[start..i + 1] == t[start..i] + [t[i]];
        ScanItem(t, start, i + 1);
      } else {
        assert t[start..][i - start] == t[i];
      }
    } else {
      assert t[start..] == t[start..i];
    }
  }

  /** The whitespace phase agrees with the maximal whitespace run. */
  lemma {:induction false} ScanSpaces(t: string, start: nat, i: nat)
    requires start <= i <= |t| && AllSpace(t[start..i])
    ensures var w := SpaceRun(t[start..]);
            var j := start + w;
            Scan(t, i, Spaces(start))
            == if w == 0 then None
               else if j < |t| then (if AllDot(t[j..]) then Some(t[j..]) else None)
               else if w >= 2 && IsDot(t[|t| - 1]) then Some(t[|t| - 1..])
               else None
    decreases |t| - i
  {
    if i < |t| && IsSpace(t[i]) {
      assert t[start..i + 1] == t[start..i] + [t[i]];
      ScanSpaces(t, start, i + 1);
    } else {
      SpaceRunAt(t, start, i);
      if i != start && i < |t| {
        ScanItem(t, i, i);
      }
    }
  }

  /** A whitespace prefix followed by a non-space or the end is the whole whitespace run. */
  lemma {:induction false} SpaceRunAt(t: string, start: nat, i: nat)
    requires start <= i <= |t| && AllSpace(t[start..i]) && (i == |t| || !IsSpace(t[i]))
    ensures SpaceRun(t[start..]) == i - start
    decreases i - start
  {
    if start < i {
      assert t[start..][1..] == t[start + 1..];
      assert t[start + 1..i] == t[start..i][1..];
      SpaceRunAt(t, start + 1, i);
    }
  }

  /** The digit phase agrees with the maximal digit run. */
  lemma {:induction false} ScanDigits(t: string, i: nat)
    requires i <= |t| && forall k :: 0 <= k < i ==> IsDigit(t[k])
    ensures Scan(t, i, Digits) == OrderedItemByRuns(t)
    decreases |t| - i
  {
    if i < |t| && IsDigit(t[i]) {
      ScanDigits(t, i + 1);
    } else {
      DigitRunAt(t, i);
      if 0 < i < |t| && t[i] == '.' {
        ScanSpaces(t, i + 1, i + 1);
      }
    }
  }

  /** A digit prefix followed by a non-digit or the end is the whole digit run. */
  lemma {:induction false} DigitRunAt(t: string, i: nat)
    requires i <= |t| && (forall k :: 0 <= k < i ==> IsDigit(t[k])) && (i == |t| || !IsDigit(t[i]))
    ensures DigitRun(t) == i
    decreases i
  {
    if 0 < i {
      assert forall k :: 0 <= k < i - 1 ==> t[1..][k] == t[k + 1];
      DigitRunAt(t[1..], i - 1);
    }
  }

  /** The scan finds what the maximal runs give. */
  lemma OrderedItemIsByRuns(t: string)
    ensures OrderedItem(t) == OrderedItemByRuns(t)
  {
    ScanDigits(t, 0);
  }

  /** The regex semantics of `^(\d+)\.\s+(.+)$` for a result `r` on `t`: on a match, `t` is
      a marker followed by the non-empty, line-terminator-free item, and the greedy `\s+`
      made that marker the longest one that still lets the item match; with no match,
      no marker prefix of `t` is followed by such a remainder. */
  ghost predicate RegexResult(t: string, r: Option<string>) {
    && (r.Some? ==> 0 < |r.value| <= |t| && t[|t| - |r.value|..] == r.value && AllDot(r.value)
                    && IsOrderedMarker(t[..|t| - |r.value|])
                    && forall j :: |t| - |r.value| < j < |t| ==> !(IsOrderedMarker(t[..j]) && AllDot(t[j..])))
    && (r.None? ==> forall j :: 0 <= j < |t| && IsOrderedMarker(t[..j]) ==> !AllDot(t[j..]))
  }

  /** `OrderedItem` has the regex semantics. */
  lemma OrderedItemMatches(t: string)
    ensures RegexResult(t, OrderedItem(t))
  {
    OrderedItemIsByRuns(t);
    var n := DigitRun(t);
    if n == 0 || n == |t| || t[n] != '.' {
      assert OrderedItemByRuns(t) == None;
      NoMarkerWithoutDot(t);
    } else {
      var w := SpaceRun(t[n + 1..]);
      var j := n + 1 + w;
      if w == 0 {
        assert OrderedItemByRuns(t) == None;
        MarkerShape(t, n, w);
      } else if j < |t| {
        if AllDot(t[j..]) {
          assert OrderedItemByRuns(t) == Some(t[j..]);
          RestMatches(t, n, w);
        } else {
          assert OrderedItemByRuns(t) == None;
          RestFails(t, n, w);
        }
      } else if w >= 2 && IsDot(t[|t| - 1]) {
        assert OrderedItemByRuns(t) == Some(t[|t| - 1..]);
        LastGivenBack(t, n, w);
      } else {
        assert OrderedItemByRuns(t) == None;
        NothingGivenBack(t, n, w);
      }
    }
  }

  /** The whitespace run stops before an all-dot rest: the rest is the item. */
  lemma RestMatches(t: string, n: nat, w: nat)
    requires n == DigitRun(t) && 1 <= n < |t| && t[n] == '.'
    requires w == SpaceRun(t[n + 1..]) && 0 < w && n + 1 + w < |t| && AllDot(t[n + 1 + w..])
    ensures RegexResult(t, Some(t[n + 1 + w..]))
  {
    MarkerShape(t, n, w);
  }

  /** The whitespace run stops before a rest holding a line terminator: no match. */
  lemma RestFails(t: string, n: nat, w: nat)
    requires n == DigitRun(t) && 1 <= n < |t| && t[n] == '.'
    requires w == SpaceRun(t[n + 1..]) && 0 < w && n + 1 + w < |t| && !AllDot(t[n + 1 + w..])
    ensures RegexResult(t, None)
  {
    var j := n + 1 + w;
    MarkerShape(t, n, w);
    forall i | n + 2 <= i <= j ensures !AllDot(t[i..]) {
      assert t[j..] == t[i..][j - i..];
    }
  }

  /** The whitespace run reaches the end and has a character to spare: the regex gives the
      last one back to the item. */
  lemma LastGivenBack(t: string, n: nat, w: nat)
    requires n == DigitRun(t) && 1 <= n < |t| && t[n] == '.'
    requires w == SpaceRun(t[n + 1..]) && 2 <= w && n + 1 + w == |t| && IsDot(t[|t| - 1])
    ensures RegexResult(t, Some(t[|t| - 1..]))
  {
    MarkerShape(t, n, w);
  }

  /** The whitespace run reaches the end with nothing to spare: no match. */
  lemma NothingGivenBack(t: string, n: nat, w: nat)
    requires n == DigitRun(t) && 1 <= n < |t| && t[n] == '.'
    requires w == SpaceRun(t[n + 1..]) && 0 < w && n + 1 + w == |t| && !(w >= 2 && IsDot(t[|t| - 1]))
    ensures RegexResult(t, None)
  {
    MarkerShape(t, n, w);
    forall i | n + 2 <= i < |t| ensures !AllDot(t[i..]) {
      assert t[i..][|t| - 1 - i] == t[|t| - 1];
    }
  }

  /** Without a dot right after a non-empty digit run no prefix is a marker. */
  lemma NoMarkerWithoutDot(t: string)
    requires var n := DigitRun(t); n == 0 || n == |t| || t[n] != '.'
    ensures forall j :: 0 <= j <= |t| ==> !IsOrderedMarker(t[..j])
  {
    var n := DigitRun(t);
    forall j | 0 <= j <= |t| ensures !IsOrderedMarker(t[..j]) {
      DigitRunPrefix(t, j);
    }
  }

  /** The digit run of a prefix is the prefix's share of the digit run. */
  lemma DigitRunPrefix(t: string, j: nat)
    requires j <= |t|
    ensures DigitRun(t[..j]) == if j <= DigitRun(t) then j else DigitRun(t)
  {
    var m := t[..j];
    var n := DigitRun(t);
    var k := DigitRun(m);
    DigitRunSpec(t);
    DigitRunSpec(m);
    if j <= n {
      assert forall i :: 0 <= i < j ==> m[i] == t[i];
    } else {
      assert m[n] == t[n];
    }
  }

  /** The markers that are prefixes of `t` are exactly `t[..j]` for `n + 2 <= j <= n + 1 + w`. */
  lemma MarkerShape(t: string, n: nat, w: nat)
    requires n == DigitRun(t) && 1 <= n < |t| && t[n] == '.'
    requires w == SpaceRun(t[n + 1..])
    ensures forall j :: 0 <= j <= |t| ==> (IsOrderedMarker(t[..j]) <==> n + 2 <= j <= n + 1 + w)
  {
    forall j | 0 <= j <= |t|
      ensures IsOrderedMarker(t[..j]) <==> n + 2 <= j <= n + 1 + w
    {
      MarkerAt(t, n, w, j);
    }
  }

  lemma MarkerAt(t: string, n: nat, w: nat, j: nat)
    requires n == DigitRun(t) && 1 <= n < |t| && t[n] == '.'
    requires w == SpaceRun(t[n + 1..]) && j <= |t|
    ensures IsOrderedMarker(t[..j]) <==> n + 2 <= j <= n + 1 + w
  {
    DigitRunPrefix(t, j);
    if n + 2 <= j {
      var m := t[..j];
      var u := t[n + 1..];
      SpaceRunSpec(u);
      assert m[n + 1..] == u[..j - n - 1];
      if j <= n + 1 + w {
        assert u[..j - n - 1] == u[..w][..j - n - 1];
      } else {
        assert u[..j - n - 1][w] == u[w];
      }
    }
  }

  /** The classification chain of the source for a line outside a code block that is
      not a fence: blank, headings longest prefix first on the untrimmed line, bullet
      and numbered items on the trimmed line, blockquote on the untrimmed line, rule,
      and otherwise a paragraph. */
  function Classify(line: string): LineKind {
    var t := Trim(line);
    if t == "" then Blank
    else
      var n := HeadingHashes(line);
      if n > 0 then HeadingLine(n + 1, line[n + 1..])
      else ClassifyBody(line, t)
  }

  /** The heading tests, longest prefix first: the number of hash signs of the first of
      `####`, `###`, `##`, `#` that starts `line` followed by a space, or 0 for none. */
  function HeadingHashes(line: string): (n: nat)
    ensures n <= 4 && (n > 0 ==> n + 1 <= |line|)
  {
    if "#### " <= line then 4
    else if "### " <= line then 3
    else if "## " <= line then 2
    else if "# " <= line then 1
    else 0
  }

  /** The chain after the headings: bullet and numbered items on the trimmed line `t`. */
  function ClassifyBody(line: string, t: string): LineKind {
    if "- " <= t || "* " <= t then BulletLine(t[2..])
    else if OrderedItem(t).Some? then NumberedLine(OrderedItem(t).value)
    else ClassifyBlock(line, t)
  }

  /** The tail of the chain: blockquote on the untrimmed line, rule, paragraph. */
  function ClassifyBlock(line: string, t: string): LineKind {
    if "> " <= line then QuoteLine(line[2..])
    else if t == "---" || t == "***" then RuleLine
    else ParagraphLine
  }

  /** The parser's state: the closure variables of `parseMarkdown`. */
  datatype Parser = Parser(
    elements: seq<Block>,
    inCodeBlock: bool,
    codeBlockContent: seq<string>,
    codeBlockLanguage: string,
    inList: ListMode,
    listItems: seq<string>)

  const Start := Parser([], false, [], "", NotInList, [])

  /** Every pending item through the inline formatter, in order. */
  function FormatItems(items: seq<string>): (r: seq<string>)
    ensures |r| == |items| && forall i :: 0 <= i < |items| ==> r[i] == Format(items[i])
  {
    seq(|items|, i requires 0 <= i < |items| => Format(items[i]))
  }

  /** `flushList`: pending items become one list block; nothing pending changes nothing. */
  function Flush(p: Parser): Parser {
    if |p.listItems| > 0 then
      p.(elements := p.elements + [List(FormatItems(p.listItems))], listItems := [], inList := NotInList)
    else p
  }

  function Emit(p: Parser, b: Block): Parser {
    p.(elements := p.elements + [b])
  }

  /** A numbered item joins the pending list; only with nothing pending does it start
      a fresh list, marked ordered. */
  function AddNumbered(p: Parser, item: string): Parser {
    var q := if p.inList == NotInList || |p.listItems| == 0
             then Flush(p).(inList := InOrderedList, listItems := []) else p;
    q.(listItems := q.listItems + [item])
  }

  /** One iteration of the source's `forEach` over the lines. */
  function Step(p: Parser, line: string): Parser {
    if IsFence(line) then
      if p.inCodeBlock then
        p.(elements := p.elements + [Code(p.codeBlockLanguage, Join(p.codeBlockContent, "\n"))],
           codeBlockContent := [], codeBlockLanguage := "", inCodeBlock := false)
      else Flush(p).(codeBlockLanguage := FenceLanguage(line), inCodeBlock := true)
    else if p.inCodeBlock then p.(codeBlockContent := p.codeBlockContent + [line])
    else Classified(p, Classify(line), line)
  }

  /** The effect of a line of kind `kind` outside a code block. */
  function Classified(p: Parser, kind: LineKind, line: string): Parser {
    match kind
      case Blank => Flush(p)
      case HeadingLine(level, text) => Emit(Flush(p), Heading(level, text))
      case BulletLine(item) => p.(inList := InList, listItems := p.listItems + [item])
      case NumberedLine(item) => AddNumbered(p, item)
      case QuoteLine(text) => Emit(Flush(p), Quote(Format(text)))
      case RuleLine => Emit(Flush(p), Rule)
      case ParagraphLine => Emit(Flush(p), Paragraph(Format(line)))
  }
  /** A quote, rule or paragraph line flushes the pending list and emits its block. */
  lemma ClassifiedEmits(p: Parser, kind: LineKind, line: string, block: Block)
    requires || (kind.QuoteLine? && block == Quote(Format(kind.text)))
             || (kind.RuleLine? && block == Rule)
             || (kind.ParagraphLine? && block == Paragraph(Format(line)))
    ensures Classified(p, kind, line) == Emit(Flush(p), block)
  {
  }


  /** The state after feeding `lines` to `p`, one `Step` per line in order. */
  function Run(p: Parser, lines: seq<string>): Parser
    decreases |lines|
  {
    if lines == [] then p else Step(Run(p, lines[..|lines| - 1]), lines[|lines| - 1])
  }

  function Lines(content: string): seq<string> {
    Split(content, '\n')
  }

  /** The blocks produced from a sequence of lines, the pending list flushed at the end. */
  function RenderLines(lines: seq<string>): seq<Block> {
    Flush(Run(Start, lines)).elements
  }

  /** `parseMarkdown(content)`, as blocks. */
  function Render(content: string): seq<Block> {
    RenderLines(Lines(content))
  }

  /** The variables `parseMarkdown` keeps across its pass, with `flushList` and the
      per-line callback as methods that update them in place. */
  class MarkdownParser {
    var elements: seq<Block>
    var inCodeBlock: bool
    var codeBlockContent: seq<string>
    var codeBlockLanguage: string
    var inList: ListMode
    var listItems: seq<string>

    function State(): Parser
      reads this
    {
      Parser(elements, inCodeBlock, codeBlockContent, codeBlockLanguage, inList, listItems)
    }

    constructor ()
      ensures State() == Start
    {
      elements := [];
      inCodeBlock := false;
      codeBlockContent := [];
      codeBlockLanguage := "";
      inList := NotInList;
      listItems := [];
    }

    /** `flushList`. */
    method FlushList()
      modifies this
      ensures State() == Flush(old(State()))
    {
      if |listItems| > 0 {
        elements := elements + [List(FormatItems(listItems))];
        listItems := [];
        inList := NotInList;
      }
    }

    /** The `forEach` callback: classify one line and update the state. */
    method ProcessLine(line: string)
      modifies this
      ensures State() == Step(old(State()), line)
    {
      ghost var p := State();
      var trimmed := Trim(line);
      if "```" <= trimmed {
        if inCodeBlock {
          StepCloseFence(p, line);
          elements := elements + [Code(codeBlockLanguage, Join(codeBlockContent, "\n"))];
          codeBlockContent := [];
          codeBlockLanguage := "";
          inCodeBlock := false;
        } else {
          StepOpenFence(p, line);
          FlushList();
          codeBlockLanguage := Trim(trimmed[3..]);
          inCodeBlock := true;
        }
        return;
      }
      if inCodeBlock {
        StepInCode(p, line);
        codeBlockContent := codeBlockContent + [line];
        return;
      }
      ProcessOutsideCode(line, trimmed);
    }

    /** The part of the callback after the fence and code-block tests. */
    method ProcessOutsideCode(line: string, trimmed: string)
      requires trimmed == Trim(line) && !IsFence(line) && !inCodeBlock
      modifies this
      ensures State() == Step(old(State()), line)
    {
      if trimmed == "" {
        FlushList();
      } else if "#### " <= line {
        FlushList();
        elements := elements + [Heading(5, line[5..])];
      } else if "### " <= line {
        FlushList();
        elements := elements + [Heading(4, line[4..])];
      } else if "## " <= line {
        FlushList();
        elements := elements + [Heading(3, line[3..])];
      } else if "# " <= line {
        FlushList();
        elements := elements + [Heading(2, line[2..])];
      } else {
        ProcessBody(line, trimmed);
      }
    }

    /** A numbered item: a fresh list is started only when none is pending. */
    method AddOrderedItem(item: string)
      modifies this
      ensures State() == AddNumbered(old(State()), item)
    {
      if inList == NotInList || |listItems| == 0 {
        FlushList();
        inList := InOrderedList;
        listItems := [];
      }
      listItems := listItems + [item];
    }

    /** The part of the callback after the blank and heading tests: list items,
        blockquote, rule, paragraph. */
    method ProcessBody(line: string, trimmed: string)
      modifies this
      ensures State() == Classified(old(State()), ClassifyBody(line, trimmed), line)
    {
      if "- " <= trimmed || "* " <= trimmed {
        inList := InList;
        listItems := listItems + [trimmed[2..]];
        return;
      }
      var orderedListMatch := OrderedItem(trimmed);
      if orderedListMatch.Some? {
        AddOrderedItem(orderedListMatch.value);
        return;
      }
      ProcessBlockLine(line, trimmed);
    }

    /** Blockquote, rule or paragraph: flush, then emit the block. */
    method ProcessBlockLine(line: string, trimmed: string)
      modifies this
      ensures State() == Classified(old(State()), ClassifyBlock(line, trimmed), line)
    {
      ghost var p := State();
      var block;
      if "> " <= line {
        assert ClassifyBlock(line, trimmed) == QuoteLine(line[2..]);
        block := Quote(Format(line[2..]));
      } else if trimmed == "---" || trimmed == "***" {
        assert ClassifyBlock(line, trimmed) == RuleLine;
        block := Rule;
      } else {
        assert ClassifyBlock(line, trimmed) == ParagraphLine;
        block := Paragraph(Format(line));
      }
      ClassifiedEmits(p, ClassifyBlock(line, trimmed), line, block);
      FlushList();
      elements := elements + [block];
    }
  }

  /** `parseMarkdown`: one forward pass over the lines of `content`, then a final flush. */
  method ParseMarkdown(content: string) returns (elements: seq<Block>)
    ensures elements == Render(content)
  {
    var lines := Split(content, '\n');
    var parser := new MarkdownParser();
    var index := 0;
    while index < |lines|
      invariant 0 <= index <= |lines|
      invariant parser.State() == Run(Start, lines[..index])
    {
      assert lines[..index + 1][..index] == lines[..index];
      parser.ProcessLine(lines[index]);
      index := index + 1;
    }
    assert lines[..index] == lines;
    parser.FlushList();
    elements := parser.elements;
  }


  // ---------------------------------------------------------------------------
  // Properties of the renderer
  // ---------------------------------------------------------------------------

  /** Feeding one more line is one more step. */
  lemma RunSnoc(p: Parser, lines: seq<string>, line: string)
    ensures Run(p, lines + [line]) == Step(Run(p, lines), line)
  {
    assert (lines + [line])[..|lines|] == lines;
  }

  /** Feeding two stretches of lines is feeding their concatenation. */
  lemma {:induction false} RunAppend(p: Parser, a: seq<string>, b: seq<string>)
    ensures Run(p, a + b) == Run(Run(p, a), b)
    decreases |b|
  {
    if b == [] {
      assert a + b == a;
    } else {
      var init := b[..|b| - 1];
      var last := b[|b| - 1];
      assert a + b == (a + init) + [last];
      assert b == init + [last];
      RunAppend(p, a, init);
      RunSnoc(p, a + init, last);
      RunSnoc(Run(p, a), init, last);
    }
  }

  lemma RunOne(p: Parser, line: string)
    ensures Run(p, [line]) == Step(p, line)
  {
    RunSnoc(p, [], line);
    assert [] + [line] == [line];
  }

  /** Outside a code block a line that is not a fence acts by its classification. */
  lemma StepOutside(p: Parser, line: string)
    requires !IsFence(line) && !p.inCodeBlock
    ensures Step(p, line) == Classified(p, Classify(line), line)
  {
  }

  /** Inside a code block a line that is not a fence is kept verbatim. */
  lemma StepInCode(p: Parser, line: string)
    requires !IsFence(line) && p.inCodeBlock
    ensures Step(p, line) == p.(codeBlockContent := p.codeBlockContent + [line])
  {
  }

  /** An opening fence flushes the pending list and records the language. */
  lemma StepOpenFence(p: Parser, line: string)
    requires IsFence(line) && !p.inCodeBlock
    ensures Step(p, line) == Flush(p).(codeBlockLanguage := FenceLanguage(line), inCodeBlock := true)
  {
  }

  /** A closing fence emits the accumulated lines as one code block and resets the accumulator. */
  lemma StepCloseFence(p: Parser, line: string)
    requires IsFence(line) && p.inCodeBlock
    ensures Step(p, line)
            == Emit(p, Code(p.codeBlockLanguage, Join(p.codeBlockContent, "\n")))
                 .(codeBlockContent := [], codeBlockLanguage := "", inCodeBlock := false)
  {
  }

  /** The state invariant of the pass: the `inList` flag is set exactly when items are
      pending, nothing is pending inside a code block, and the code accumulator and
      language are empty outside one. */
  ghost predicate Good(p: Parser) {
    && (p.inList != NotInList <==> p.listItems != [])
    && (p.inCodeBlock ==> p.listItems == [])
    && (!p.inCodeBlock ==> p.codeBlockContent == [] && p.codeBlockLanguage == "")
  }

  /** Blocks still to come from the state: a pending list and an open code block. */
  function Pending(p: Parser): nat {
    (if p.listItems != [] then 1 else 0) + (if p.inCodeBlock then 1 else 0)
  }

  /** Flushing keeps the invariant, leaves nothing pending, and turns a pending list
      into exactly one emitted block. */
  lemma FlushGood(p: Parser)
    requires Good(p)
    ensures var q := Flush(p);
            Good(q) && q.listItems == [] && q.inCodeBlock == p.inCodeBlock
            && |q.elements| + Pending(q) == |p.elements| + Pending(p)
  {
  }

  /** A classified line outside a code block keeps the invariant and adds at most one
      block, emitted or pending. */
  lemma ClassifiedGood(p: Parser, kind: LineKind, line: string)
    requires Good(p) && !p.inCodeBlock
    ensures var q := Classified(p, kind, line);
            Good(q) && !q.inCodeBlock && |q.elements| + Pending(q) <= |p.elements| + Pending(p) + 1
  {
    FlushGood(p);
  }

  /** One line keeps the invariant and adds at most one to emitted-plus-pending blocks. */
  lemma StepGood(p: Parser, line: string)
    requires Good(p)
    ensures Good(Step(p, line))
    ensures |Step(p, line).elements| + Pending(Step(p, line)) <= |p.elements| + Pending(p) + 1
  {
    if IsFence(line) {
      FlushGood(p);
      if p.inCodeBlock {
        StepCloseFence(p, line);
      } else {
        StepOpenFence(p, line);
      }
    } else if p.inCodeBlock {
      StepInCode(p, line);
    } else {
      StepOutside(p, line);
      ClassifiedGood(p, Classify(line), line);
    }
  }

  /** From the start state, every prefix of the pass keeps the invariant, and emitted
      plus pending blocks never outnumber the lines read. */
  lemma {:induction false} RunGood(lines: seq<string>)
    ensures Good(Run(Start, lines))
    ensures |Run(Start, lines).elements| + Pending(Run(Start, lines)) <= |lines|
    decreases |lines|
  {
    if lines != [] {
      RunGood(lines[..|lines| - 1]);
      StepGood(Run(Start, lines[..|lines| - 1]), lines[|lines| - 1]);
    }
  }

  /** A post never renders to more blocks than it has lines. */
  lemma RenderBound(content: string)
    ensures |Render(content)| <= |Lines(content)|
  {
    RunGood(Lines(content));
    FlushGood(Run(Start, Lines(content)));
  }

  /** A blank line (all whitespace) outside a code block emits nothing but the pending list. */
  lemma BlankLine(p: Parser, line: string)
    requires !p.inCodeBlock && AllSpace(line)
    ensures Step(p, line) == Flush(p)
  {
    TrimEmptyIffAllSpace(line);
    StepOutside(p, line);
  }

  /** An empty post renders to no blocks. */
  lemma RenderEmpty()
    ensures Render("") == []
  {
    assert Lines("") == [""];
    RunOne(Start, "");
    BlankLine(Start, "");
  }

  /** Flushing is idempotent, and with nothing pending it changes nothing. */
  lemma FlushIdempotent(p: Parser)
    ensures Flush(Flush(p)) == Flush(p)
    ensures p.listItems == [] ==> Flush(p) == p
    ensures Flush(p).listItems == []
  {
  }

  // Lists

  predicate IsItem(kind: LineKind) {
    kind.BulletLine? || kind.NumberedLine?
  }

  /** A line outside a code block that is a bullet (`- `, `* `) or numbered (`1. `) item. */
  predicate ItemLine(line: string) {
    !IsFence(line) && IsItem(Classify(line))
  }

  /** Every line of `lines` is an item line. */
  predicate AllItemLines(lines: seq<string>)
    decreases |lines|
  {
    lines == [] || (AllItemLines(lines[..|lines| - 1]) && ItemLine(lines[|lines| - 1]))
  }

  /** The item texts of a run of item lines, in order. */
  function ItemsOf(lines: seq<string>): (r: seq<string>)
    requires AllItemLines(lines)
    decreases |lines|
    ensures |r| == |lines|
  {
    if lines == [] then []
    else ItemsOf(lines[..|lines| - 1]) + [Classify(lines[|lines| - 1]).item]
  }

  /** An item emits nothing and appends its text to the pending items, whether it is a
      bullet or a numbered item and whichever kind of item started the pending list. */
  lemma ClassifiedItem(p: Parser, kind: LineKind, line: string)
    requires Good(p) && !p.inCodeBlock && IsItem(kind)
    ensures var q := Classified(p, kind, line);
            q.elements == p.elements && q.listItems == p.listItems + [kind.item]
            && Good(q) && !q.inCodeBlock
  {
  }

  /** A run of item lines emits nothing and appends all their texts, in order. */
  lemma {:induction false} ListRun(p: Parser, lines: seq<string>)
    requires Good(p) && !p.inCodeBlock
    requires AllItemLines(lines)
    ensures var q := Run(p, lines);
            q.elements == p.elements && q.listItems == p.listItems + ItemsOf(lines)
            && Good(q) && !q.inCodeBlock
    decreases |lines|
  {
    if lines == [] {
      assert p.listItems + ItemsOf(lines) == p.listItems;
    } else {
      var init := lines[..|lines| - 1];
      var last := lines[|lines| - 1];
      ListRun(p, init);
      var r := Run(p, init);
      StepOutside(r, last);
      ClassifiedItem(r, Classify(last), last);
    }
  }

  /** Consecutive item lines after a stretch that leaves nothing pending render as one
      list block holding every item, formatted, in order: bullets and numbered items
      may be mixed freely and still make a single list. */
  lemma ItemsMakeOneList(before: seq<string>, items: seq<string>)
    requires !Run(Start, before).inCodeBlock && Run(Start, before).listItems == []
    requires |items| > 0 && AllItemLines(items)
    ensures RenderLines(before + items) == RenderLines(before) + [List(FormatItems(ItemsOf(items)))]
  {
    var p := Run(Start, before);
    RunGood(before);
    RunAppend(Start, before, items);
    ListRun(p, items);
    assert p.listItems + ItemsOf(items) == ItemsOf(items);
  }

  /** A numbered item while items are pending (bullets or numbers alike) joins the
      pending list: no flush, no fresh list, and the list mode is left as it was. */
  lemma NumberedJoinsPending(p: Parser, line: string)
    requires !p.inCodeBlock && p.listItems != [] && p.inList != NotInList
    requires !IsFence(line) && Classify(line).NumberedLine?
    ensures Step(p, line) == p.(listItems := p.listItems + [Classify(line).item])
  {
    StepOutside(p, line);
  }

  /** `- x` is a bullet item with text `x`. */
  lemma BulletLineOf(x: string)
    requires x != [] && !IsSpace(x[|x| - 1])
    ensures ItemLine("- " + x) && Classify("- " + x) == BulletLine(x)
  {
    var line := "- " + x;
    assert line[|line| - 1] == x[|x| - 1];
    TrimOfTrimmed(line);
    assert line[2..] == x;
  }

  /** `1. y` is a numbered item with text `y`. */
  lemma NumberedLineOf(y: string)
    requires y != [] && AllDot(y) && !IsSpace(y[0]) && !IsSpace(y[|y| - 1])
    ensures ItemLine("1. " + y) && Classify("1. " + y) == NumberedLine(y)
  {
    var t := "1. " + y;
    assert t[|t| - 1] == y[|y| - 1];
    TrimOfTrimmed(t);
    assert t[3..] == y && t[3] == y[0];
    ScanItem(t, 3, 3);
    assert Scan(t, 3, Spaces(2)) == Some(y);
    assert Scan(t, 1, Digits) == Some(y);
  }

  /** A bullet item followed at once by a numbered item makes one list of both items,
      not two lists: the numbered item joins the pending bullet list. */
  lemma {:induction false} BulletThenNumbered(x: string, y: string)
    requires x != [] && !IsSpace(x[|x| - 1])
    requires y != [] && AllDot(y) && !IsSpace(y[0]) && !IsSpace(y[|y| - 1])
    ensures RenderLines(["- " + x, "1. " + y]) == [List([Format(x), Format(y)])]
  {
    var q := Start.(inList := InList, listItems := [x, y]);
    assert Run(Start, ["- " + x, "1. " + y]) == q by { BulletThenNumberedRun(x, y); }
    assert Flush(q).elements == [List(FormatItems([x, y]))];
    assert FormatItems([x, y]) == [Format(x), Format(y)];
  }

  /** The two item lines leave one pending list of both items. */
  lemma {:induction false} BulletThenNumberedRun(x: string, y: string)
    requires x != [] && !IsSpace(x[|x| - 1])
    requires y != [] && AllDot(y) && !IsSpace(y[0]) && !IsSpace(y[|y| - 1])
    ensures Run(Start, ["- " + x, "1. " + y]) == Start.(inList := InList, listItems := [x, y])
  {
    var p := Start.(inList := InList, listItems := [x]);
    assert Run(Start, ["- " + x]) == p by {
      BulletLineOf(x);
      RunOne(Start, "- " + x);
    }
    assert Step(p, "1. " + y) == p.(listItems := [x, y]) by { NumberedAfterItems(p, y); }
    RunSnoc(Start, ["- " + x], "1. " + y);
    assert ["- " + x] + ["1. " + y] == ["- " + x, "1. " + y];
  }

  /** `1. y` while items are pending appends `y` to them. */
  lemma NumberedAfterItems(p: Parser, y: string)
    requires !p.inCodeBlock && p.listItems != [] && p.inList != NotInList
    requires y != [] && AllDot(y) && !IsSpace(y[0]) && !IsSpace(y[|y| - 1])
    ensures Step(p, "1. " + y) == p.(listItems := p.listItems + [y])
  {
    var line := "1. " + y;
    NumberedLineOf(y);
    assert !IsFence(line) && Classify(line) == NumberedLine(y);
    NumberedJoinsPending(p, line);
  }

  /** Any other line outside a code block closes the pending list first: nothing stays
      pending, and what the line adds comes after the list block, at most one block. */
  lemma ClassifiedNonItem(p: Parser, kind: LineKind, line: string)
    requires Good(p) && !p.inCodeBlock && !IsItem(kind)
    ensures var q := Classified(p, kind, line);
            q.listItems == [] && q.inList == NotInList && Flush(p).elements <= q.elements
            && |q.elements| <= |Flush(p).elements| + 1
  {
  }

  lemma NonItemLineClosesList(p: Parser, line: string)
    requires Good(p) && !p.inCodeBlock && !IsFence(line) && !IsItem(Classify(line))
    ensures var q := Step(p, line);
            q.listItems == [] && q.inList == NotInList && Flush(p).elements <= q.elements
            && |q.elements| <= |Flush(p).elements| + 1
  {
    StepOutside(p, line);
    ClassifiedNonItem(p, Classify(line), line);
  }

  // Headings

  /** `n` hash signs. */
  function Hashes(n: nat): (r: string)
    ensures |r| == n && forall i :: 0 <= i < n ==> r[i] == '#'
  {
    seq(n, _ => '#')
  }

  /** A line starting with a non-space character keeps that character first when trimmed. */
  lemma TrimKeepsFirst(line: string)
    requires line != [] && !IsSpace(line[0])
    ensures Trim(line) != [] && Trim(line)[0] == line[0]
  {
    TrimStartOfTrimmed(line);
    TrimEndSpec(line);
    TrimEmptyIffAllSpace(line);
    assert !AllSpace(line);
  }

  /** `n` hash signs and a space pass the heading test for exactly `n` hash signs:
      the tests for longer prefixes fail on the space. */
  lemma HeadingHashesOf(n: nat, text: string)
    requires 1 <= n <= 4
    ensures HeadingHashes(Hashes(n) + " " + text) == n
  {
    var line := Hashes(n) + " " + text;
    assert line[n] == ' ';
    if n < 4 { assert line[n] != "#### "[n]; }
    if n < 3 { assert line[n] != "### "[n]; }
    if n < 2 { assert line[n] != "## "[n]; }
    assert line[..n + 1] == Hashes(n) + " ";
  }

  /** What passes the heading test for `n` hash signs is `n` hash signs, a space and the rest. */
  lemma HeadingHashesShape(line: string)
    requires HeadingHashes(line) > 0
    ensures var n := HeadingHashes(line);
            line == Hashes(n) + " " + line[n + 1..]
  {
    var n := HeadingHashes(line);
    assert line[..n + 1] == Hashes(n) + " ";
    assert line == line[..n + 1] + line[n + 1..];
  }

  /** `#` to `####` and a space start a heading one level deeper than the number of hash
      signs, whose text is the raw rest of the line. */
  lemma ClassifyHeading(n: nat, text: string)
    requires 1 <= n <= 4
    ensures Classify(Hashes(n) + " " + text) == HeadingLine(n + 1, text)
  {
    var line := Hashes(n) + " " + text;
    assert line[0] == '#';
    TrimKeepsFirst(line);
    HeadingHashesOf(n, text);
    assert line[n + 1..] == text;
  }

  /** `#` to `####` followed by a space make headings of levels 2 to 5 whose text is the
      raw rest of the line; the pending list is flushed first. */
  lemma HeadingLevels(p: Parser, n: nat, text: string)
    requires 1 <= n <= 4 && !p.inCodeBlock
    ensures Step(p, Hashes(n) + " " + text) == Emit(Flush(p), Heading(n + 1, text))
  {
    var line := Hashes(n) + " " + text;
    assert line[0] == '#';
    TrimKeepsFirst(line);
    assert !IsFence(line) by { assert Trim(line)[0] != "```"[0]; }
    ClassifyHeading(n, text);
    StepOutside(p, line);
  }

  /** Only the heading tests make headings. */
  lemma BodyIsNoHeading(line: string, t: string)
    ensures !ClassifyBody(line, t).HeadingLine?
  {
  }

  /** Conversely, a heading is always `#` to `####`, a space and the heading text, at the
      level one above the number of hash signs; so five or more hash signs, or an
      indented `#`, never make a heading. */
  lemma HeadingShape(line: string)
    requires Classify(line).HeadingLine?
    ensures var h := Classify(line);
            2 <= h.level <= 5 && line == Hashes(h.level - 1) + " " + h.text
  {
    BodyIsNoHeading(line, Trim(line));
    HeadingHashesShape(line);
  }

  // Code blocks

  /** Inside a code block, lines that are not fences are only accumulated. */
  lemma {:induction false} CodeRun(p: Parser, body: seq<string>)
    requires p.inCodeBlock
    requires forall i :: 0 <= i < |body| ==> !IsFence(body[i])
    ensures Run(p, body) == p.(codeBlockContent := p.codeBlockContent + body)
    decreases |body|
  {
    if body == [] {
      assert p.codeBlockContent + body == p.codeBlockContent;
    } else {
      var init := body[..|body| - 1];
      var last := body[|body| - 1];
      assert body == init + [last];
      CodeRun(p, init);
      RunSnoc(p, init, last);
      StepInCode(Run(p, init), last);
      assert p.codeBlockContent + init + [last] == p.codeBlockContent + body;
    }
  }

  /** A fenced block: the pending list is flushed when the fence opens, and the lines up
      to the closing fence come out verbatim as one code block, joined with line feeds,
      in the language named after the opening backticks. */
  lemma CodeBlockVerbatim(p: Parser, open: string, body: seq<string>, close: string)
    requires Good(p) && !p.inCodeBlock
    requires IsFence(open) && IsFence(close)
    requires forall i :: 0 <= i < |body| ==> !IsFence(body[i])
    ensures Run(p, [open] + body + [close]) == Emit(Flush(p), Code(FenceLanguage(open), Join(body, "\n")))
  {
    var f := Flush(p);
    var q := Step(p, open);
    RunOne(p, open);
    StepOpenFence(p, open);
    assert q == f.(codeBlockLanguage := FenceLanguage(open), inCodeBlock := true);
    assert q.codeBlockContent == [];
    CodeRun(q, body);
    RunAppend(p, [open], body);
    var r := Run(p, [open] + body);
    assert [] + body == body;
    assert r == f.(codeBlockLanguage := FenceLanguage(open), inCodeBlock := true, codeBlockContent := body);
    RunSnoc(p, [open] + body, close);
    StepCloseFence(r, close);
  }

  /** A fence that is never closed: its lines are dropped, and what is rendered is what
      the lines before it render to. */
  lemma UnterminatedCodeDropped(before: seq<string>, open: string, body: seq<string>)
    requires !Run(Start, before).inCodeBlock
    requires IsFence(open)
    requires forall i :: 0 <= i < |body| ==> !IsFence(body[i])
    ensures RenderLines(before + [open] + body) == RenderLines(before)
  {
    var p := Run(Start, before);
    RunGood(before);
    RunSnoc(Start, before, open);
    StepOpenFence(p, open);
    CodeRun(Step(p, open), body);
    RunAppend(Start, before + [open], body);
  }

  // Tags

  /** The tag list shown above a post: the comma-separated `tags` field split at each
      comma and each piece trimmed; an empty field shows no tags. */
  function Tags(tags: string): (r: seq<string>)
    ensures tags == [] ==> r == []
    ensures tags != [] ==> |r| == Count(tags, ',') + 1
    ensures forall i :: 0 <= i < |r| ==> Trimmed(r[i]) && ',' !in r[i]
  {
    if tags == [] then []
    else
      var pieces := Split(tags, ',');
      var r := seq(|pieces|, i requires 0 <= i < |pieces| => Trim(pieces[i]));
      assert forall i :: 0 <= i < |r| ==> Trimmed(r[i]) && ',' !in r[i] by {
        forall i | 0 <= i < |r| ensures Trimmed(r[i]) && ',' !in r[i] {
          TrimSpec(pieces[i]);
          if ',' in r[i] { TrimKeeps(pieces[i], ','); }
        }
      }
      r
  }

  /** Tags written back as a comma-separated field come back unchanged. */
  lemma TagsRoundTrip(ts: seq<string>)
    requires |ts| > 0 && ts != [""]
    requires forall i :: 0 <= i < |ts| ==> Trimmed(ts[i]) && ',' !in ts[i]
    ensures Tags(Join(ts, ",")) == ts
  {
    SplitJoin(ts, ',');
    assert Join(ts, ",") != [] by {
      if |ts| == 1 { assert ts[0] != ""; } else { assert |Join(ts, ",")| > 0; }
    }
    forall i | 0 <= i < |ts| ensures Trim(ts[i]) == ts[i] {
      TrimOfTrimmed(ts[i]);
    }
  }

  /** Each shown tag is the trimmed text between two commas of the field, in order. */
  lemma TagsTrimPieces(ts: seq<string>)
    requires |ts| > 0 && ts != [""]
    requires forall i :: 0 <= i < |ts| ==> ',' !in ts[i]
    ensures Tags(Join(ts, ",")) == seq(|ts|, i requires 0 <= i < |ts| => Trim(ts[i]))
  {
    SplitJoin(ts, ',');
    assert Join(ts, ",") != [] by {
      if |ts| == 1 { assert ts[0] != ""; } else { assert |Join(ts, ",")| > 0; }
    }
  }

  // Worked example

  /** A line starting with a character other than whitespace, `#`, `-`, `*`, `>`, a
      backtick or a digit is a paragraph. */
  lemma ParagraphLineOf(line: string)
    requires line != [] && Trimmed(line)
    requires line[0] !in {'#', '-', '*', '>', '`'} && !IsDigit(line[0])
    ensures !IsFence(line) && Classify(line) == ParagraphLine
  {
    TrimOfTrimmed(line);
    assert !("```" <= line) by { assert line[0] != '`'; }
    assert Scan(line, 0, Digits) == None;
  }

  /** Two bullet items `- x` and `- y`, from a state with nothing pending. */
  lemma {:induction false} TwoBullets(p: Parser, x: string, y: string)
    requires p.listItems == [] && p.inList == NotInList && !p.inCodeBlock
    requires x != [] && !IsSpace(x[|x| - 1]) && y != [] && !IsSpace(y[|y| - 1])
    ensures Run(p, ["- " + x, "- " + y]) == p.(inList := InList, listItems := [x, y])
  {
    BulletLineOf(x);
    BulletLineOf(y);
    RunOne(p, "- " + x);
    var q := p.(inList := InList, listItems := [x]);
    assert Step(p, "- " + x) == q;
    RunSnoc(p, ["- " + x], "- " + y);
    assert ["- " + x] + ["- " + y] == ["- " + x, "- " + y];
  }

  /** The shape of a post like the one below (a heading, a paragraph, a blank line, two
      bullets, a blank line and a fenced block of one line):

      ```
      # Title
      Some **bold** and _italic_ text.

      - item one
      - item two

      ```python
      print("hi")
      ```
      ```

      It renders to a level-2 heading with the raw title, the formatted paragraph, one list
      with both items in order, and the code line verbatim in the named language. For the
      post above, `Inline.FormatBoldItalic` gives the paragraph as
      `Some <strong>bold</strong> and <em>italic</em> text.` and `Inline.FormatPlain` leaves
      both items as they are. */
  lemma {:induction false} ExamplePost(title: string, para: string, x: string, y: string, lang: string, code: string)
    requires !IsFence(para) && Classify(para) == ParagraphLine
    requires x != [] && !IsSpace(x[|x| - 1]) && y != [] && !IsSpace(y[|y| - 1])
    requires Trimmed(lang) && code != [] && !IsSpace(code[0]) && code[0] != '`'
    ensures RenderLines(["# " + title, para, "", "- " + x, "- " + y, "", "```" + lang, code, "```"])
            == [Heading(2, title), Paragraph(Format(para)), List([Format(x), Format(y)]), Code(lang, code)]
  {
    var head := ["# " + title, para, ""];
    var list := ["- " + x, "- " + y];
    var tail := ["", "```" + lang, code, "```"];
    var lines := ["# " + title, para, "", "- " + x, "- " + y, "", "```" + lang, code, "```"];
    var p := Start.(elements := [Heading(2, title), Paragraph(Format(para))]);
    var q := p.(inList := InList, listItems := [x, y]);
    var blocks := [Heading(2, title), Paragraph(Format(para)), List([Format(x), Format(y)]), Code(lang, code)];
    var r := Start.(elements := blocks);
    assert Run(Start, lines) == Run(Run(Run(Start, head), list), tail) by {
      ConcatNine("# " + title, para, "", "- " + x, "- " + y, "", "```" + lang, code, "```");
      RunAppend(Start, head, list);
      RunAppend(Start, head + list, tail);
    }
    assert Run(Start, head) == p by { ExampleHead(title, para); }
    assert Run(p, list) == q by { TwoBullets(p, x, y); }
    assert Run(q, tail) == r by { ExampleCode(q, x, y, lang, code); }
    assert Run(Start, lines) == r;
    assert Flush(r) == r;
    assert RenderLines(lines) == r.elements;
  }

  /** Nine lines cut as three, two and four. */
  lemma ConcatNine<T>(a: T, b: T, c: T, d: T, e: T, f: T, g: T, h: T, i: T)
    ensures [a, b, c] + [d, e] + [f, g, h, i] == [a, b, c, d, e, f, g, h, i]
  {
  }

  /** The heading, the paragraph and the blank line of the example post. */
  lemma {:induction false} ExampleHead(title: string, para: string)
    requires !IsFence(para) && Classify(para) == ParagraphLine
    ensures Run(Start, ["# " + title, para, ""])
            == Start.(elements := [Heading(2, title), Paragraph(Format(para))])
  {
    var l1 := "# " + title;
    var p1 := Start.(elements := [Heading(2, title)]);
    assert Hashes(1) + " " + title == l1;
    HeadingLevels(Start, 1, title);
    RunOne(Start, l1);
    var p2 := p1.(elements := p1.elements + [Paragraph(Format(para))]);
    StepOutside(p1, para);
    RunSnoc(Start, [l1], para);
    assert [l1] + [para] == [l1, para];
    BlankLine(p2, "");
    RunSnoc(Start, [l1, para], "");
    assert [l1, para] + [""] == [l1, para, ""];
  }

  /** The blank line closing the pending list, then a fenced block of one line. */
  lemma {:induction false} ExampleCode(q: Parser, x: string, y: string, lang: string, code: string)
    requires q.listItems == [x, y] && q.inList != NotInList
    requires !q.inCodeBlock && q.codeBlockContent == [] && q.codeBlockLanguage == ""
    requires Trimmed(lang) && code != [] && !IsSpace(code[0]) && code[0] != '`'
    ensures Run(q, ["", "```" + lang, code, "```"])
            == q.(elements := q.elements + [List([Format(x), Format(y)]), Code(lang, code)],
                  inList := NotInList, listItems := [])
  {
    assert FormatItems([x, y]) == [Format(x), Format(y)];
    BlankLine(q, "");
    RunOne(q, "");
    var r := Flush(q);
    var open, close := "```" + lang, "```";
    assert Trimmed(open) by {
      if lang != [] { assert open[|open| - 1] == lang[|lang| - 1]; }
    }
    TrimOfTrimmed(open);
    TrimOfTrimmed(close);
    TrimOfTrimmed(lang);
    assert open[3..] == lang;
    TrimKeepsFirst(code);
    assert !IsFence(code) by { assert Trim(code)[0] != "```"[0]; }
    CodeBlockVerbatim(r, open, [code], close);
    assert [open] + [code] + [close] == [open, code, close];
    RunAppend(q, [""], [open, code, close]);
    assert [""] + [open, code, close] == ["", open, code, close];
  }
}
