/** The rewriter of the ROM symbol table: `name = 0x...;` lines become PROVIDE lines. */
module RomTable {
  import opened Machine

  // ---- The string functions it uses -----------------------------------------

  /** The index of the first line feed, or the length. */
  function LineEnd(text: string): (k: nat)
    ensures k <= |text|
  {
    if text == [] || text[0] == '\n' then 0 else 1 + LineEnd(text[1..])
  }

  /** A line without the carriage return before its line feed. */
  function WithoutReturn(line: string): string {
    if line != [] && line[|line| - 1] == '\r' then line[..|line| - 1] else line
  }

  /** `str::lines`. */
  function Lines(text: string): seq<string>
    decreases |text|
  {
    if text == [] then []
    else
      var k := LineEnd(text);
      if k == |text| then [text] else [WithoutReturn(text[..k])] + Lines(text[k + 1..])
  }

  /** `char::is_whitespace`. */
  predicate IsWhitespace(c: char) {
    var code := c as int;
    9 <= code <= 13 || code in {0x20, 0x85, 0xA0, 0x1680, 0x2028, 0x2029, 0x202F, 0x205F, 0x3000}
    || 0x2000 <= code <= 0x200A
  }

  /** `str::trim`. */
  function Trim(text: string): string {
    if text == [] then text
    else if IsWhitespace(text[0]) then Trim(text[1..])
    else if IsWhitespace(text[|text| - 1]) then Trim(text[..|text| - 1])
    else text
  }

  /** `str::split_once`, at the first place the separator occurs. */
  function SplitOnce(text: string, separator: string): Option<(string, string)> {
    if |text| < |separator| then None
    else if separator <= text then Some((text[..0], text[|separator|..]))
    else if text == [] then None
    else
      var later := SplitOnce(text[1..], separator);
      if later.None? then None else Some(([text[0]] + later.value.0, later.value.1))
  }

  // ---- Definitions ----------------------------------------------------------

  datatype Definition = Definition(name: string, value: string)

  predicate IsAsciiAlphanumeric(c: char) {
    '0' <= c <= '9' || 'A' <= c <= 'Z' || 'a' <= c <= 'z'
  }

  predicate IsHexDigit(c: char) {
    '0' <= c <= '9' || 'A' <= c <= 'F' || 'a' <= c <= 'f'
  }

  predicate IsName(name: string) {
    name != [] && forall i | 0 <= i < |name| :: IsAsciiAlphanumeric(name[i]) || name[i] in "_.$"
  }

  predicate IsValue(value: string) {
    "0x" <= value && forall i | 2 <= i < |value| :: IsHexDigit(value[i])
  }

  predicate IsValid(definition: Definition) {
    IsName(definition.name) && IsValue(definition.value)
  }

  /** The definition a line holds, if it has the form of one. */
  function DefinitionIn(line: string): Option<Definition> {
    var trimmed := Trim(line);
    if trimmed == [] || trimmed[|trimmed| - 1] != ';' then None
    else
      var split := SplitOnce(trimmed[..|trimmed| - 1], " = ");
      if split.None? then None else Some(Definition(split.value.0, split.value.1))
  }

  /** All definitions of a table in their order; other lines contribute nothing. */
  function Definitions(lines: seq<string>): seq<Definition> {
    if lines == [] then []
    else
      match DefinitionIn(lines[0])
      case None => Definitions(lines[1..])
      case Some(definition) => [definition] + Definitions(lines[1..])
  }

  ghost predicate AllValid(definitions: seq<Definition>) {
    forall i | 0 <= i < |definitions| :: IsValid(definitions[i])
  }

  /** A name has letters, digits, underscores, dots and dollar signs, by their ASCII codes. */
  lemma NamesAreExact(name: string)
    ensures IsName(name) <==>
              && |name| > 0
              && forall i | 0 <= i < |name| ::
                   var code := name[i] as int;
                   48 <= code <= 57 || 65 <= code <= 90 || 97 <= code <= 122 || code == 95 || code == 46 || code == 36
  {
    forall i | 0 <= i < |name|
      ensures IsAsciiAlphanumeric(name[i]) || name[i] in "_.$" <==>
                var code := name[i] as int;
                48 <= code <= 57 || 65 <= code <= 90 || 97 <= code <= 122 || code == 95 || code == 46 || code == 36
    {
      CodeOf(name[i]);
    }
  }

  lemma CodeOf(c: char)
    ensures c in "_.$" <==> c as int == 95 || c as int == 46 || c as int == 36
    ensures '0' as int == 48 && '9' as int == 57 && 'A' as int == 65 && 'Z' as int == 90
    ensures 'F' as int == 70 && 'a' as int == 97 && 'f' as int == 102 && 'z' as int == 122
  {
    assert '_' as int == 95 && '.' as int == 46 && '$' as int == 36;
    if c as int == 95 {
      assert c == '_';
    } else if c as int == 46 {
      assert c == '.';
    } else if c as int == 36 {
      assert c == '$';
    }
  }

  /** A value is `0x` and hexadecimal digits of either case, by their ASCII codes; none at all
      will do. */
  lemma ValuesAreExact(value: string)
    ensures IsValue(value) <==>
              && |value| >= 2 && value[0] as int == 48 && value[1] as int == 120
              && forall i | 2 <= i < |value| ::
                   var code := value[i] as int;
                   48 <= code <= 57 || 65 <= code <= 70 || 97 <= code <= 102
  {
    CodeOf('0');
    assert 'x' as int == 120;
    if |value| >= 2 && value[0] as int == 48 && value[1] as int == 120 {
      assert value[0] == '0' && value[1] == 'x';
      assert "0x" <= value;
    }
  }

  /** The white space among the ASCII characters: tab to carriage return, and the blank. */
  lemma AsciiWhitespace(c: char)
    requires c as int < 128
    ensures IsWhitespace(c) <==> c == ' ' || '\t' <= c <= '\r'
  {
    assert ' ' as int == 0x20 && '\t' as int == 9 && '\r' as int == 13;
  }

  // ---- The rewriter ---------------------------------------------------------

  const FIRST_COMMENT: string := "/* Generated from ws63_acore_rom.lds. */"
  /// In two parts, because the verifier does not get through one literal of this length.
  const SECOND_COMMENT: string := "/* Application definitions " + "override these mask-ROM fallbacks. */"

  /** The generated text starts with two comments. */
  function Header(): string {
    FIRST_COMMENT + "\n" + (SECOND_COMMENT + "\n")
  }

  function ProvideLine(definition: Definition): string {
    "PROVIDE(" + definition.name + " = " + definition.value + ");"
  }

  function ProvideLines(definitions: seq<Definition>): string {
    if definitions == [] then []
    else ProvideLine(definitions[0]) + "\n" + ProvideLines(definitions[1..])
  }

  /** The appends for one definition. */
  method PushProvide(generated: string, definition: Definition) returns (text: string)
    ensures text == generated + (ProvideLine(definition) + "\n")
  {
    Appends(generated, definition);
    text := generated + "PROVIDE(";
    text := text + definition.name;
    text := text + " = ";
    text := text + definition.value;
    text := text + ");\n";
  }

  /** The loop of `write_rom_fallbacks`: a PROVIDE line for each definition, or a panic at
      the first one whose name or value is not well formed. */
  method AppendProvides(generated: string, lines: seq<string>) returns (result: Option<string>)
    ensures result.Some? <==> AllValid(Definitions(lines))
    ensures result.Some? ==> result.value == generated + ProvideLines(Definitions(lines))
  {
    var text, rest := generated, lines;
    ghost var whole := generated + ProvideLines(Definitions(lines));
    while rest != []
      invariant AllValid(Definitions(rest)) <==> AllValid(Definitions(lines))
      invariant text + ProvideLines(Definitions(rest)) == whole
      decreases rest
    {
      var found := DefinitionIn(rest[0]);
      if found.Some? {
        FirstDefinition(found.value, Definitions(rest[1..]), text);
        if !IsValid(found.value) {
          return None;
        }
        text := PushProvide(text, found.value);
      }
      rest := rest[1..];
    }
    assert text + [] == text;
    result := Some(text);
  }

  lemma FirstDefinition(first: Definition, others: seq<Definition>, text: string)
    ensures AllValid([first] + others) <==> IsValid(first) && AllValid(others)
    ensures text + ProvideLines([first] + others) == text + (ProvideLine(first) + "\n") + ProvideLines(others)
  {
    var all := [first] + others;
    assert all[0] == first && all[1..] == others;
    if IsValid(first) && AllValid(others) {
      forall i | 0 <= i < |all| ensures IsValid(all[i]) {
        assert i > 0 ==> all[i] == others[i - 1];
      }
    }
    if AllValid(all) {
      forall i | 0 <= i < |others| ensures IsValid(others[i]) {
        assert others[i] == all[i + 1];
      }
    }
  }

  /** `write_rom_fallbacks`: the generated text, or a panic. */
  method WriteRomFallbacks(source: string) returns (generated: Option<string>)
    ensures generated.Some? <==> AllValid(Definitions(Lines(source)))
    ensures generated.Some? ==> generated.value == Header() + ProvideLines(Definitions(Lines(source)))
  {
    generated := AppendProvides(Header(), Lines(source));
  }

  lemma Appends(text: string, definition: Definition)
    ensures text + "PROVIDE(" + definition.name + " = " + definition.value + ");\n"
            == text + (ProvideLine(definition) + "\n")
  {
    assert ");\n" == ");" + "\n";
  }

  // ---- Reading the result back ----------------------------------------------

  /** The definition a line of the generated linker script provides. */
  function ProvidedBy(line: string): Option<Definition> {
    if |line| < 10 || line[..8] != "PROVIDE(" || line[|line| - 2..] != ");" then None
    else
      var split := SplitOnce(line[8..|line| - 2], " = ");
      if split.None? then None else Some(Definition(split.value.0, split.value.1))
  }

  function Provided(lines: seq<string>): seq<Definition> {
    if lines == [] then []
    else
      match ProvidedBy(lines[0])
      case None => Provided(lines[1..])
      case Some(definition) => [definition] + Provided(lines[1..])
  }

  lemma {:induction false} SplitsAfterName(name: string, value: string)
    requires ' ' !in name
    ensures SplitOnce(name + " = " + value, " = ") == Some((name, value))
  {
    var text := name + " = " + value;
    if name == [] {
      assert text == " = " + value;
      assert text[|" = "|..] == value;
    } else {
      assert text[0] == name[0] != ' ';
      SplitsAfterName(name[1..], value);
      assert text[1..] == name[1..] + " = " + value;
      assert name == [name[0]] + name[1..];
    }
  }

  lemma NameHasNoSpace(name: string)
    requires IsName(name)
    ensures ' ' !in name && '\n' !in name
  {
    forall i | 0 <= i < |name| ensures name[i] != ' ' && name[i] != '\n' {
    }
  }

  lemma ValueHasNoLineFeed(value: string)
    requires IsValue(value)
    ensures '\n' !in value
  {
    forall i | 0 <= i < |value| ensures value[i] != '\n' {
      assert i >= 2 || value[i] == "0x"[i];
    }
  }

  /** A PROVIDE line says its definition. */
  lemma ProvideLineSays(definition: Definition)
    requires IsValid(definition)
    ensures ProvidedBy(ProvideLine(definition)) == Some(definition)
    ensures '\n' !in ProvideLine(definition)
  {
    var line, inner := ProvideLine(definition), definition.name + " = " + definition.value;
    NameHasNoSpace(definition.name);
    ValueHasNoLineFeed(definition.value);
    SplitsAfterName(definition.name, definition.value);
    assert line == "PROVIDE(" + inner + ");";
    assert line[8..|line| - 2] == inner;
  }

  lemma {:induction false} LineEndAt(line: string, rest: string)
    requires '\n' !in line
    ensures LineEnd(line + "\n" + rest) == |line|
  {
    var text := line + "\n" + rest;
    if line == [] {
    } else {
      LineEndAt(line[1..], rest);
      assert text[1..] == line[1..] + "\n" + rest;
    }
  }

  lemma FirstLine(line: string, rest: string)
    requires '\n' !in line && (line == [] || line[|line| - 1] != '\r')
    ensures Lines(line + "\n" + rest) == [line] + Lines(rest)
  {
    var text := line + "\n" + rest;
    LineEndAt(line, rest);
    assert text[..|line|] == line && text[|line| + 1..] == rest;
  }

  lemma {:induction false} ProvideLinesSay(definitions: seq<Definition>)
    requires AllValid(definitions)
    ensures Provided(Lines(ProvideLines(definitions))) == definitions
  {
    if definitions == [] {
    } else {
      var line, rest := ProvideLine(definitions[0]), ProvideLines(definitions[1..]);
      ProvideLineSays(definitions[0]);
      ProvideLinesSay(definitions[1..]);
      FirstLine(line, rest);
    }
  }

  /** Text that is one line and no PROVIDE line. */
  predicate IsComment(line: string) {
    line != [] && line[0] == '/' && line[|line| - 1] == '/' && '\n' !in line
  }

  lemma FirstIsComment()
    ensures IsComment(FIRST_COMMENT)
  {
  }

  lemma SecondIsComment()
    ensures IsComment(SECOND_COMMENT)
  {
  }

  lemma CommentProvidesNothing(line: string, rest: string)
    requires IsComment(line)
    ensures Provided(Lines(line + "\n" + rest)) == Provided(Lines(rest))
  {
    FirstLine(line, rest);
    if |line| >= 10 {
      assert line[..8][0] == '/';
    }
  }

  /** The two comment lines provide nothing. */
  lemma HeaderProvidesNothing(rest: string)
    ensures Provided(Lines(Header() + rest)) == Provided(Lines(rest))
  {
    FirstIsComment();
    SecondIsComment();
    var first, second := FIRST_COMMENT, SECOND_COMMENT;
    JoinComments(first, second, rest);
    CommentProvidesNothing(first, second + "\n" + rest);
    CommentProvidesNothing(second, rest);
  }

  lemma JoinComments(first: string, second: string, rest: string)
    ensures first + "\n" + (second + "\n") + rest == first + "\n" + (second + "\n" + rest)
  {
  }

  /** For every table the rewriter accepts, the generated script provides the table's
      definitions, with the same names and values in the same order. */
  lemma RewritingKeepsMeaning(source: string)
    requires AllValid(Definitions(Lines(source)))
    ensures Provided(Lines(Header() + ProvideLines(Definitions(Lines(source))))) == Definitions(Lines(source))
  {
    HeaderProvidesNothing(ProvideLines(Definitions(Lines(source))));
    ProvideLinesSay(Definitions(Lines(source)));
  }

  // ---- What the string functions do -----------------------------------------

  /** A line: no line feed in it, and no carriage return at its end. */
  predicate IsLine(line: string) {
    '\n' !in line && (line == [] || line[|line| - 1] != '\r')
  }

  /** Lines laid end to end, each with its line end, which is a line feed or a carriage return
      and a line feed. */
  function Ended(lines: seq<string>, ends: seq<string>): string
    requires |ends| == |lines|
  {
    if lines == [] then [] else lines[0] + ends[0] + Ended(lines[1..], ends[1..])
  }

  lemma FirstEndedLine(line: string, end: string, rest: string)
    requires IsLine(line) && (end == "\n" || end == "\r\n")
    ensures Lines(line + end + rest) == [line] + Lines(rest)
  {
    var text := line + end + rest;
    if end == "\n" {
      FirstLine(line, rest);
    } else {
      var whole := line + "\r";
      LineEndAt(whole, rest);
      assert text == whole + "\n" + rest;
      assert text[..|whole|] == whole && text[|whole| + 1..] == rest;
      assert whole[..|line|] == line;
    }
  }

  lemma {:induction false} NoLineFeedNoEnd(line: string)
    requires '\n' !in line
    ensures LineEnd(line) == |line|
  {
    if line != [] {
      NoLineFeedNoEnd(line[1..]);
    }
  }

  /** A text is read as its lines, whichever ends they have, and what follows the last end is
      a line of its own unless it is empty. */
  lemma {:induction false} LinesAreRead(lines: seq<string>, ends: seq<string>, last: string)
    requires |ends| == |lines| && '\n' !in last
    requires forall i | 0 <= i < |lines| :: IsLine(lines[i]) && (ends[i] == "\n" || ends[i] == "\r\n")
    ensures Lines(Ended(lines, ends) + last) == lines + if last == [] then [] else [last]
    decreases lines
  {
    if lines == [] {
      assert Ended(lines, ends) + last == last;
      NoLineFeedNoEnd(last);
    } else {
      var rest := Ended(lines[1..], ends[1..]) + last;
      LinesAreRead(lines[1..], ends[1..], last);
      assert Ended(lines, ends) + last == lines[0] + ends[0] + rest;
      FirstEndedLine(lines[0], ends[0], rest);
    }
  }

  predicate OccursAt(text: string, separator: string, k: nat) {
    k + |separator| <= |text| && text[k..k + |separator|] == separator
  }

  lemma OccursInTail(text: string, separator: string, k: nat)
    requires text != [] && separator != []
    ensures OccursAt(text[1..], separator, k) <==> OccursAt(text, separator, k + 1)
  {
    if k + 1 + |separator| <= |text| {
      SliceOfSlice(text, 1, |text|, k, k + |separator|);
      assert text[1..|text|] == text[1..];
    }
  }

  /** A text is split at the first separator. */
  lemma {:induction false} SplitsAtFirst(text: string, separator: string, k: nat)
    requires separator != [] && OccursAt(text, separator, k)
    requires forall j: nat | j < k :: !OccursAt(text, separator, j)
    ensures SplitOnce(text, separator) == Some((text[..k], text[k + |separator|..]))
  {
    if k == 0 {
      assert text[0..|separator|] == text[..|separator|];
    } else {
      var tail := text[1..];
      OccursInTail(text, separator, k - 1);
      forall j: nat | j < k - 1
        ensures !OccursAt(tail, separator, j)
      {
        OccursInTail(text, separator, j);
      }
      SplitsAtFirst(tail, separator, k - 1);
      assert !OccursAt(text, separator, 0);
      assert text[0..|separator|] == text[..|separator|];
      assert [text[0]] + tail[..k - 1] == text[..k];
      assert tail[k - 1 + |separator|..] == text[k + |separator|..];
    }
  }

  lemma Reassemble(first: char, front: string, separator: string, back: string, text: string)
    requires text != [] && text[0] == first && text[1..] == front + separator + back
    ensures text == [first] + front + separator + back
  {
    assert text == [text[0]] + text[1..];
    assert [first] + (front + separator + back) == [first] + front + separator + back;
  }

  lemma {:induction false} SplitMeansFound(text: string, separator: string)
    requires SplitOnce(text, separator).Some?
    ensures var parts := SplitOnce(text, separator).value; text == parts.0 + separator + parts.1
    decreases text
  {
    if separator <= text {
      assert text == text[..0] + separator + text[|separator|..];
    } else {
      SplitMeansFound(text[1..], separator);
      var later := SplitOnce(text[1..], separator).value;
      Reassemble(text[0], later.0, separator, later.1, text);
    }
  }

  lemma Longer(c: char, before: string, middle: string, after: string)
    requires IsWhitespace(c) && AllWhitespace(before)
    ensures AllWhitespace([c] + before)
    ensures [c] + (before + middle + after) == ([c] + before) + middle + after
  {
  }

  lemma LongerAtEnd(c: char, before: string, middle: string, after: string)
    requires IsWhitespace(c) && AllWhitespace(after)
    ensures AllWhitespace(after + [c])
    ensures (before + middle + after) + [c] == before + middle + (after + [c])
  {
  }

  lemma {:induction false} TrimTakesWhitespace(text: string) returns (before: string, after: string)
    ensures text == before + Trim(text) + after && AllWhitespace(before) && AllWhitespace(after)
    ensures Trim(text) != [] ==> !IsWhitespace(Trim(text)[0]) && !IsWhitespace(Trim(text)[|Trim(text)| - 1])
    decreases |text|
  {
    before, after := [], [];
    if text == [] {
    } else if IsWhitespace(text[0]) {
      var front, back := TrimTakesWhitespace(text[1..]);
      Longer(text[0], front, Trim(text[1..]), back);
      assert text == [text[0]] + text[1..];
      before, after := [text[0]] + front, back;
    } else if IsWhitespace(text[|text| - 1]) {
      var init, last := text[..|text| - 1], text[|text| - 1];
      var front, back := TrimTakesWhitespace(init);
      LongerAtEnd(last, front, Trim(init), back);
      assert text == init + [last];
      before, after := front, back + [last];
    }
  }

  /** Only a line of this form holds a definition: white space, name, value, semicolon. */
  lemma OnlyDefinitionLinesAreRead(line: string, definition: Definition) returns (before: string, after: string)
    requires DefinitionIn(line) == Some(definition)
    ensures line == before + (definition.name + " = " + definition.value + ";") + after
    ensures AllWhitespace(before) && AllWhitespace(after)
  {
    before, after := TrimTakesWhitespace(line);
    var trimmed := Trim(line);
    var core := trimmed[..|trimmed| - 1];
    SplitMeansFound(core, " = ");
    assert trimmed == core + ";";
  }

  // ---- Source lines ---------------------------------------------------------

  predicate AllWhitespace(text: string) {
    forall i | 0 <= i < |text| :: IsWhitespace(text[i])
  }

  lemma {:induction false} TrimKeepsCore(before: string, core: string, after: string)
    requires AllWhitespace(before) && AllWhitespace(after)
    requires core != [] && !IsWhitespace(core[0]) && !IsWhitespace(core[|core| - 1])
    ensures Trim(before + core + after) == core
    decreases |before| + |after|
  {
    var text := before + core + after;
    if before != [] {
      TrimKeepsCore(before[1..], core, after);
      assert text[1..] == before[1..] + core + after;
    } else if after != [] {
      TrimKeepsCore(before, core, after[..|after| - 1]);
      assert text[..|text| - 1] == before + core + after[..|after| - 1];
    }
  }

  /** A source line with a well-formed definition is read as that definition, whatever
      white space surrounds it. */
  lemma DefinitionLineIsRead(definition: Definition, before: string, after: string)
    requires IsValid(definition) && AllWhitespace(before) && AllWhitespace(after)
    ensures DefinitionIn(before + (definition.name + " = " + definition.value + ";") + after) == Some(definition)
  {
    var name, value := definition.name, definition.value;
    var core := name + " = " + value + ";";
    NameHasNoSpace(name);
    assert !IsWhitespace(core[0]) by {
      assert core[0] == name[0];
    }
    TrimKeepsCore(before, core, after);
    SplitsAfterName(name, value);
    assert core[..|core| - 1] == name + " = " + value;
  }
}
