/** convertMdToToml (scripts/sync-ai-config.js:88-135): the YAML front matter
    of a Markdown command is split off, handed to a YAML loader, and the
    fields it yields are laid out as a TOML command manifest whose
    `[documentation]` table holds the trimmed Markdown body.

    The YAML loader is a parameter: it yields the fields the converter reads,
    or `None` when it throws or yields nothing (an empty front matter loads as
    null or undefined, and the converter's own field access then throws). A
    scalar front matter such as `hello` loads as a value with no fields: that
    is `Some` with every field absent, and the manifest takes every fallback.
    Values are interpolated into the
    manifest raw, without any escaping, as the script does.

    `ParseManifest` reads a manifest back. It is not part of the script: it is
    the inverse against which the layout is proved (`ParseRender`), so that
    the facts about `ConvertMdToToml` can be stated field by field. */
module Manifest {
  import opened Common
  import opened Text

  /** The `tools['gemini-cli']` entry of the front matter. */
  datatype GeminiTool = GeminiTool(trigger: Option<string>, description: Option<string>)

  /** The front-matter fields the converter reads. */
  datatype Frontmatter = Frontmatter(
    name: Option<string>,
    description: Option<string>,
    phase: Option<string>,
    prerequisites: Option<seq<string>>,
    creates: Option<seq<string>>,
    geminiCli: Option<GeminiTool>)

  /** The fields of the `[command.gemini]` table. */
  datatype GeminiTable = GeminiTable(trigger: string, description: string)

  /** What a manifest says, field by field. */
  datatype Manifest = Manifest(
    name: string,
    description: string,
    phase: Option<string>,
    prerequisites: Option<seq<string>>,
    creates: Option<seq<string>>,
    gemini: Option<GeminiTable>,
    body: string)

  // ---------------------------------------------------------------------------
  // Front matter: the regular expression /^---\n([\s\S]*?)\n---\n/
  // ---------------------------------------------------------------------------

  const Opening: string := "---\n"
  const Closing: string := "\n---\n"

  /** A closing marker `\n---\n` starts at position `i` of `s`. */
  predicate ClosesAt(s: string, i: nat) {
    i + 5 <= |s| && s[i..i + 5] == Closing
  }

  /** The first closing marker at or after `from`. */
  function FindClosing(s: string, from: nat): (r: Option<nat>)
    decreases |s| - from
    ensures r.Some? ==> from <= r.value && ClosesAt(s, r.value)
    ensures forall k :: from <= k && (r.None? || k < r.value) ==> !ClosesAt(s, k)
  {
    if from + 5 > |s| then None
    else if s[from..from + 5] == Closing then Some(from)
    else FindClosing(s, from + 1)
  }

  /** No closing marker starts inside `header` (it may start right after it):
      the lazy `*?` then ends the match exactly at the header's end. */
  predicate NoEarlyClosing(header: string) {
    forall k :: 0 <= k < |header| ==> !ClosesAt(header + Closing, k)
  }

  /** The front matter and the text after its closing marker, when the text
      opens with `---\n` and a closing `\n---\n` follows (the opening marker's
      own line feed cannot start the closing one). */
  function SplitFrontmatter(text: string): (r: Option<(string, string)>)
    ensures r.None? <==> !StartsWith(text, Opening) || forall i :: 4 <= i ==> !ClosesAt(text, i)
    ensures r.Some? ==> text == Opening + r.value.0 + Closing + r.value.1
    ensures r.Some? ==> NoEarlyClosing(r.value.0)
  {
    if !StartsWith(text, Opening) then None
    else
      match FindClosing(text, 4)
      case None => None
      case Some(i) =>
        var header := text[4..i];
        assert text == Opening + header + Closing + text[i + 5..];
        HeaderBeforeFirstClosing(text, i);
        Some((header, text[i + 5..]))
  }

  /** The text between the opening marker and the first closing one holds no
      earlier closing marker. */
  lemma HeaderBeforeFirstClosing(text: string, i: nat)
    requires 4 <= i && ClosesAt(text, i)
    requires forall k :: 4 <= k < i ==> !ClosesAt(text, k)
    ensures NoEarlyClosing(text[4..i])
  {
    var header := text[4..i];
    assert header + Closing == text[4..i + 5];
    forall k | 0 <= k < |header|
      ensures !ClosesAt(header + Closing, k)
    {
      SliceOfSlice(text, 4, i + 5, k, k + 5);
      assert !ClosesAt(text, 4 + k);
    }
  }

  /** Splitting a text assembled from a header and a body gives both back. */
  lemma {:induction false} SplitOfJoin(header: string, rest: string)
    requires NoEarlyClosing(header)
    ensures SplitFrontmatter(Opening + header + Closing + rest) == Some((header, rest))
  {
    var text := Opening + header + Closing + rest;
    var n := |header|;
    assert text[..4] == Opening;
    assert text[4..9 + n] == header + Closing;
    assert text[4 + n..9 + n] == Closing;
    assert ClosesAt(text, 4 + n);
    var j := FindClosing(text, 4);
    assert j.Some? && j.value <= 4 + n;
    if j.value < 4 + n {
      var k := j.value - 4;
      SliceOfSlice(text, 4, 9 + n, k, k + 5);
      assert ClosesAt(header + Closing, k);
      assert false;
    }
    assert text[4..4 + n] == header;
    assert text[9 + n..] == rest;
  }

  // ---------------------------------------------------------------------------
  // Field selection: the `||` fallbacks and truthiness tests
  // ---------------------------------------------------------------------------

  /** The manifest the converter writes for front matter `fm` of the file
      `fileName`.md, whose trimmed body is `body`. */
  function ManifestOf(fm: Frontmatter, fileName: string, body: string): Manifest {
    Manifest(
      OrElse(fm.name, fileName),
      OrElse(fm.description, ""),
      if Truthy(fm.phase) then fm.phase else None,
      fm.prerequisites,
      fm.creates,
      match fm.geminiCli
      case None => None
      case Some(g) => Some(GeminiTable(OrElse(g.trigger, "/" + fileName), OrElse(g.description, ""))),
      body)
  }

  // ---------------------------------------------------------------------------
  // Layout
  // ---------------------------------------------------------------------------

  function Line(s: string): string { s + "\n" }

  /** `key = "value"` */
  function Quoted(key: string, value: string): string {
    key + " = \"" + value + "\""
  }

  /** `items.map(p => `"${p}"`).join(', ')` */
  function QuoteAll(items: seq<string>): string {
    if items == [] then ""
    else if |items| == 1 then "\"" + items[0] + "\""
    else "\"" + items[0] + "\", " + QuoteAll(items[1..])
  }

  /** `key = [...]` */
  function ListField(key: string, items: seq<string>): string {
    key + " = [" + QuoteAll(items) + "]"
  }

  const GeminiHeading: string := "\n[command.gemini]\n"
  const DocumentationHeading: string := "\n[documentation]\ncontent = \"\"\"\n"
  const DocumentationEnd: string := "\n\"\"\"\n"

  /** The two comment lines and the fixed part of the `[command]` table. */
  function RenderHeader(name: string, description: string): string {
    Line("# " + name) + Line("# " + description) + Line("") + Line("[command]")
    + Line(Quoted("name", name)) + Line(Quoted("description", description))
  }

  function RenderPhase(phase: Option<string>): string {
    if phase.Some? then Line(Quoted("phase", phase.value)) else ""
  }

  function RenderList(key: string, items: Option<seq<string>>): string {
    if items.Some? then Line(ListField(key, items.value)) else ""
  }

  function RenderGemini(g: Option<GeminiTable>): string {
    match g
    case None => ""
    case Some(t) => GeminiHeading + Line(Quoted("trigger", t.trigger)) + Line(Quoted("description", t.description))
  }

  function RenderDocumentation(body: string): string {
    DocumentationHeading + body + DocumentationEnd
  }

  /** The manifest text, in the order the script appends it. */
  function Render(m: Manifest): string {
    RenderHeader(m.name, m.description)
    + (RenderPhase(m.phase)
    + (RenderList("prerequisites", m.prerequisites)
    + (RenderList("creates", m.creates)
    + (RenderGemini(m.gemini)
    + RenderDocumentation(m.body)))))
  }

  /** convertMdToToml: `None` is the script's null result. */
  function ConvertMdToToml(text: string, fileName: string, load: string -> Option<Frontmatter>): (r: Option<string>)
    ensures !StartsWith(text, Opening) ==> r.None?
    ensures (forall i :: 4 <= i ==> !ClosesAt(text, i)) ==> r.None?
    ensures r.Some? ==> EndsWith(r.value, DocumentationEnd)
  {
    match SplitFrontmatter(text)
    case None => None
    case Some((header, rest)) =>
      match load(header)
      case None => None
      case Some(fm) =>
        var m := ManifestOf(fm, fileName, Trim(rest));
        RenderEndsWithDocumentation(m);
        Some(Render(m))
  }

  /** Whatever is put before a text keeps its suffixes. */
  lemma EndsWithAfter(a: string, b: string, c: string)
    requires EndsWith(b, c)
    ensures EndsWith(a + b, c)
  {
    assert (a + b)[|a + b| - |c|..] == b[|b| - |c|..];
  }

  /** A manifest ends with its `[documentation]` table, so with the close of
      its multi-line string. */
  lemma RenderEndsWithDocumentation(m: Manifest)
    ensures EndsWith(Render(m), RenderDocumentation(m.body))
    ensures EndsWith(Render(m), DocumentationEnd)
  {
    RenderEndsWith(m, RenderDocumentation(m.body));
    EndsWithAfter(DocumentationHeading + m.body, DocumentationEnd, DocumentationEnd);
    RenderEndsWith(m, DocumentationEnd);
  }

  lemma RenderEndsWith(m: Manifest, d: string)
    requires EndsWith(RenderDocumentation(m.body), d)
    ensures EndsWith(Render(m), d)
  {
    var t4 := RenderGemini(m.gemini) + RenderDocumentation(m.body);
    var t3 := RenderList("creates", m.creates) + t4;
    var t2 := RenderList("prerequisites", m.prerequisites) + t3;
    var t1 := RenderPhase(m.phase) + t2;
    EndsWithAfter(RenderGemini(m.gemini), RenderDocumentation(m.body), d);
    EndsWithAfter(RenderList("creates", m.creates), t4, d);
    EndsWithAfter(RenderList("prerequisites", m.prerequisites), t3, d);
    EndsWithAfter(RenderPhase(m.phase), t2, d);
    EndsWithAfter(RenderHeader(m.name, m.description), t1, d);
  }

  // ---------------------------------------------------------------------------
  // Reading a manifest back
  // ---------------------------------------------------------------------------

  predicate QuoteFree(s: string) {
    forall i :: 0 <= i < |s| ==> s[i] != '"'
  }

  /** List items survive the `[...]` layout when each is one line without `"`. */
  predicate PlainItems(items: seq<string>) {
    forall i :: 0 <= i < |items| ==> SingleLine(items[i]) && QuoteFree(items[i])
  }

  /** The values that must stay on one line for the layout to be read back;
      the body may hold anything. */
  predicate Readable(m: Manifest) {
    && SingleLine(m.name)
    && SingleLine(m.description)
    && (m.phase.Some? ==> SingleLine(m.phase.value))
    && (m.prerequisites.Some? ==> PlainItems(m.prerequisites.value))
    && (m.creates.Some? ==> PlainItems(m.creates.value))
    && (m.gemini.Some? ==> SingleLine(m.gemini.value.trigger) && SingleLine(m.gemini.value.description))
  }

  /** The value of a `key = "value"` line. */
  function QuotedValue(line: string, key: string): Option<string> {
    var p := key + " = \"";
    if StartsWith(line, p) && |line| > |p| && line[|line| - 1] == '"' then Some(line[|p|..|line| - 1])
    else None
  }

  /** The items of a `"a", "b"` list. */
  function SplitQuoted(s: string): Option<seq<string>>
    decreases |s|
  {
    if s == "" then Some([])
    else if s[0] != '"' then None
    else
      match IndexOf(s, '"', 1)
      case None => None
      case Some(j) =>
        if j + 1 == |s| then Some([s[1..j]])
        else if StartsWith(s[j + 1..], ", ") then
          var tail :- SplitQuoted(s[j + 3..]);
          if tail == [] then None else Some([s[1..j]] + tail)
        else None
  }

  /** The items of a `key = [...]` line. */
  function ListValue(line: string, key: string): Option<seq<string>> {
    var p := key + " = [";
    if StartsWith(line, p) && |line| > |p| && line[|line| - 1] == ']' then SplitQuoted(line[|p|..|line| - 1])
    else None
  }

  /** The text after the first line, when that line is `line`. */
  function ExpectLine(s: string, line: string): Option<string> {
    match TakeLine(s)
    case Some((l, rest)) => if l == line then Some(rest) else None
    case None => None
  }

  /** The two comment lines: their texts after `# `, and the text after them. */
  function ParseComments(t: string): Option<(string, string, string)> {
    var l1 :- TakeLine(t);
    var l2 :- TakeLine(l1.1);
    if StartsWith(l1.0, "# ") && StartsWith(l2.0, "# ") then Some((l1.0[2..], l2.0[2..], l2.1))
    else None
  }

  /** The blank line and the fixed lines of the `[command]` table. */
  function ParseCommandTable(s: string, name: string, description: string): Option<string> {
    var r3 :- ExpectLine(s, "");
    var r4 :- ExpectLine(r3, "[command]");
    var r5 :- ExpectLine(r4, Quoted("name", name));
    ExpectLine(r5, Quoted("description", description))
  }

  /** The name, the description, and the text after the fixed lines. */
  function ParseHeader(t: string): Option<(string, string, string)> {
    var c :- ParseComments(t);
    var rest :- ParseCommandTable(c.2, c.0, c.1);
    Some((c.0, c.1, rest))
  }

  function ParsePhase(s: string): (Option<string>, string) {
    match TakeLine(s)
    case None => (None, s)
    case Some((l, rest)) =>
      match QuotedValue(l, "phase")
      case None => (None, s)
      case Some(v) => (Some(v), rest)
  }

  function ParseList(s: string, key: string): (Option<seq<string>>, string) {
    match TakeLine(s)
    case None => (None, s)
    case Some((l, rest)) =>
      match ListValue(l, key)
      case None => (None, s)
      case Some(v) => (Some(v), rest)
  }

  function ParseGemini(s: string): Option<(Option<GeminiTable>, string)> {
    if !StartsWith(s, GeminiHeading) then Some((None, s))
    else
      var l1 :- TakeLine(s[|GeminiHeading|..]);
      var trigger :- QuotedValue(l1.0, "trigger");
      var l2 :- TakeLine(l1.1);
      var description :- QuotedValue(l2.0, "description");
      Some((Some(GeminiTable(trigger, description)), l2.1))
  }

  function ParseDocumentation(s: string): Option<string> {
    if StartsWith(s, DocumentationHeading) && |s| >= |DocumentationHeading| + |DocumentationEnd|
       && EndsWith(s, DocumentationEnd)
    then Some(s[|DocumentationHeading|..|s| - |DocumentationEnd|])
    else None
  }

  /** The `[command.gemini]` table, if any, and the documentation body. */
  function ParseTables(s: string): Option<(Option<GeminiTable>, string)> {
    var g :- ParseGemini(s);
    var body :- ParseDocumentation(g.1);
    Some((g.0, body))
  }

  /** Everything after the fixed lines of the `[command]` table. */
  function ParseFields(s: string): Option<(Option<string>, Option<seq<string>>, Option<seq<string>>, Option<GeminiTable>, string)> {
    var (phase, r1) := ParsePhase(s);
    var (prerequisites, r2) := ParseList(r1, "prerequisites");
    var (creates, r3) := ParseList(r2, "creates");
    var tables :- ParseTables(r3);
    Some((phase, prerequisites, creates, tables.0, tables.1))
  }

  /** Reads a manifest back into its fields. */
  function ParseManifest(t: string): Option<Manifest> {
    var h :- ParseHeader(t);
    var f :- ParseFields(h.2);
    Some(Manifest(h.0, h.1, f.0, f.1, f.2, f.3, f.4))
  }
}

module ManifestProofs {
  import opened Common
  import opened Text
  import opened Manifest

  /** The quoted list reads back item for item, in order. */
  lemma {:induction false} SplitQuoteAll(items: seq<string>)
    requires PlainItems(items)
    ensures SplitQuoted(QuoteAll(items)) == Some(items)
  {
    if |items| == 1 {
      SplitQuotedOne(items[0]);
      assert items == [items[0]];
    } else if items != [] {
      assert PlainItems(items[1..]) by {
        assert forall i :: 0 <= i < |items| - 1 ==> items[1..][i] == items[i + 1];
      }
      SplitQuoteAll(items[1..]);
      SplitQuotedCons(items[0], QuoteAll(items[1..]), items[1..]);
      assert [items[0]] + items[1..] == items;
    }
  }

  lemma SplitQuotedOne(a: string)
    requires QuoteFree(a)
    ensures SplitQuoted("\"" + a + "\"") == Some([a])
  {
    ReadQuotedItem(a, "");
    assert "\"" + a + "\"" + "" == "\"" + a + "\"";
  }

  lemma SplitQuotedCons(a: string, rest: string, tail: seq<string>)
    requires QuoteFree(a) && tail != [] && SplitQuoted(rest) == Some(tail)
    ensures SplitQuoted("\"" + a + "\", " + rest) == Some([a] + tail)
  {
    var s := "\"" + a + "\", " + rest;
    ReadQuotedItem(a, ", " + rest);
    assert "\"" + a + "\"" + (", " + rest) == s;
    assert s[|a| + 2..][..2] == ", ";
    assert s[|a| + 4..] == rest;
  }

  lemma {:induction false} QuoteAllSingleLine(items: seq<string>)
    requires PlainItems(items)
    ensures SingleLine(QuoteAll(items))
  {
    if |items| > 1 {
      QuoteAllSingleLine(items[1..]);
    }
  }

  lemma QuotedValueOf(key: string, value: string)
    ensures QuotedValue(Quoted(key, value), key) == Some(value)
  {
    var line := Quoted(key, value);
    var p := key + " = \"";
    assert line[..|p|] == p;
    assert line[|p|..|line| - 1] == value;
  }

  lemma ListValueOf(key: string, items: seq<string>)
    requires PlainItems(items)
    ensures ListValue(ListField(key, items), key) == Some(items)
  {
    var line := ListField(key, items);
    var p := key + " = [";
    assert line[..|p|] == p;
    assert line[|p|..|line| - 1] == QuoteAll(items);
    SplitQuoteAll(items);
  }

  lemma ExpectLineOf(line: string, rest: string)
    requires SingleLine(line)
    ensures ExpectLine(Line(line) + rest, line) == Some(rest)
  {
    assert Line(line) + rest == line + "\n" + rest;
    TakeLineOf(line, rest);
  }

  /** Reading one quoted list item: the closing quote is the first `"` after
      the opening one. */
  lemma ReadQuotedItem(a: string, tail: string)
    requires QuoteFree(a)
    ensures var s := "\"" + a + "\"" + tail;
            IndexOf(s, '"', 1) == Some(|a| + 1) && s[1..|a| + 1] == a && s[|a| + 2..] == tail
  {
    var s := "\"" + a + "\"" + tail;
    assert s[|a| + 1] == '"';
    assert forall k :: 0 <= k < |a| ==> s[1 + k] == a[k];
    assert s[1..|a| + 1] == a;
    assert s[|a| + 2..] == tail;
  }

  lemma ParseCommentsOf(name: string, description: string, rest: string)
    requires SingleLine(name) && SingleLine(description)
    ensures ParseComments(Line("# " + name) + (Line("# " + description) + rest)) == Some((name, description, rest))
  {
    var l1, l2 := "# " + name, "# " + description;
    assert Line(l1) + (Line(l2) + rest) == l1 + "\n" + (Line(l2) + rest);
    assert Line(l2) + rest == l2 + "\n" + rest;
    TakeLineOf(l1, Line(l2) + rest);
    TakeLineOf(l2, rest);
    assert l1[..2] == "# " && l1[2..] == name;
    assert l2[..2] == "# " && l2[2..] == description;
  }

  lemma ParseCommandTableOf(name: string, description: string, rest: string)
    requires SingleLine(name) && SingleLine(description)
    ensures ParseCommandTable(Line("") + (Line("[command]") + (Line(Quoted("name", name))
              + (Line(Quoted("description", description)) + rest))), name, description)
         == Some(rest)
  {
    var l5, l6 := Quoted("name", name), Quoted("description", description);
    var r5 := Line(l6) + rest;
    var r4 := Line(l5) + r5;
    var r3 := Line("[command]") + r4;
    QuotedSingleLine("name", name);
    QuotedSingleLine("description", description);
    ExpectLineOf("", r3);
    ExpectLineOf("[command]", r4);
    ExpectLineOf(l5, r5);
    ExpectLineOf(l6, rest);
  }

  lemma ParseHeaderOf(name: string, description: string, rest: string)
    requires SingleLine(name) && SingleLine(description)
    ensures ParseHeader(RenderHeader(name, description) + rest) == Some((name, description, rest))
  {
    var tableAndRest := Line("") + (Line("[command]") + (Line(Quoted("name", name))
              + (Line(Quoted("description", description)) + rest)));
    assert RenderHeader(name, description) + rest
        == Line("# " + name) + (Line("# " + description) + tableAndRest);
    ParseCommentsOf(name, description, tableAndRest);
    ParseCommandTableOf(name, description, rest);
  }

  lemma SingleLineConcat(a: string, b: string)
    requires SingleLine(a) && SingleLine(b)
    ensures SingleLine(a + b)
  {
    assert forall i :: 0 <= i < |a + b| ==> (a + b)[i] == if i < |a| then a[i] else b[i - |a|];
  }

  lemma QuotedSingleLine(key: string, value: string)
    requires SingleLine(key) && SingleLine(value)
    ensures SingleLine(Quoted(key, value))
  {
    SingleLineConcat(key, " = \"");
    SingleLineConcat(key + " = \"", value);
    SingleLineConcat(key + " = \"" + value, "\"");
  }

  lemma ListFieldSingleLine(key: string, items: seq<string>)
    requires SingleLine(key) && PlainItems(items)
    ensures SingleLine(ListField(key, items))
  {
    QuoteAllSingleLine(items);
    SingleLineConcat(key, " = [");
    SingleLineConcat(key + " = [", QuoteAll(items));
    SingleLineConcat(key + " = [" + QuoteAll(items), "]");
  }

  /** `s` does not start with `p` when they differ at position `i`. */
  lemma DiffersAt(s: string, p: string, i: nat)
    requires i < |p| && i < |s| && s[i] != p[i]
    ensures !StartsWith(s, p)
  {
    assert |p| <= |s| ==> s[..|p|][i] == s[i];
  }

  /** A text that starts with a blank line holds no optional field line. */
  lemma LeadingBlankLine(s: string)
    requires |s| > 0 && s[0] == '\n'
    ensures ParsePhase(s) == (None, s)
    ensures ParseList(s, "prerequisites") == (None, s)
    ensures ParseList(s, "creates") == (None, s)
  {
    assert s == "" + "\n" + s[1..];
    TakeLineOf("", s[1..]);
  }

  /** A `prerequisites` or `creates` line is not a `phase` line, and a
      `creates` line is not a `prerequisites` line. */
  lemma ListLineIsNoOtherField(key: string, items: seq<string>, rest: string)
    requires key == "prerequisites" || key == "creates"
    requires PlainItems(items)
    ensures ParsePhase(Line(ListField(key, items)) + rest) == (None, Line(ListField(key, items)) + rest)
    ensures key == "creates" ==>
      ParseList(Line(ListField(key, items)) + rest, "prerequisites") == (None, Line(ListField(key, items)) + rest)
  {
    var l := ListField(key, items);
    ListFieldSingleLine(key, items);
    assert Line(l) + rest == l + "\n" + rest;
    TakeLineOf(l, rest);
    if key == "prerequisites" {
      assert l[1] == 'r';
      DiffersAt(l, "phase = \"", 1);
    } else {
      assert l[0] == 'c';
      DiffersAt(l, "phase = \"", 0);
      DiffersAt(l, "prerequisites = [", 0);
    }
  }

  lemma ParsePhaseOf(phase: Option<string>, rest: string)
    requires phase.Some? ==> SingleLine(phase.value)
    requires phase.None? ==> ParsePhase(rest) == (None, rest)
    ensures ParsePhase(RenderPhase(phase) + rest) == (phase, rest)
  {
    if phase.Some? {
      var l := Quoted("phase", phase.value);
      QuotedSingleLine("phase", phase.value);
      assert RenderPhase(phase) + rest == l + "\n" + rest;
      TakeLineOf(l, rest);
      QuotedValueOf("phase", phase.value);
    } else {
      assert RenderPhase(phase) + rest == rest;
    }
  }

  lemma ParseListOf(key: string, items: Option<seq<string>>, rest: string)
    requires SingleLine(key)
    requires items.Some? ==> PlainItems(items.value)
    requires items.None? ==> ParseList(rest, key) == (None, rest)
    ensures ParseList(RenderList(key, items) + rest, key) == (items, rest)
  {
    if items.Some? {
      var l := ListField(key, items.value);
      ListFieldSingleLine(key, items.value);
      assert RenderList(key, items) + rest == l + "\n" + rest;
      TakeLineOf(l, rest);
      ListValueOf(key, items.value);
    } else {
      assert RenderList(key, items) + rest == rest;
    }
  }

  lemma ParseDocumentationOf(body: string)
    ensures ParseDocumentation(RenderDocumentation(body)) == Some(body)
  {
    var s := RenderDocumentation(body);
    assert s[..|DocumentationHeading|] == DocumentationHeading;
    assert s[|s| - |DocumentationEnd|..] == DocumentationEnd;
    assert s[|DocumentationHeading|..|s| - |DocumentationEnd|] == body;
  }

  lemma ParseGeminiOf(g: Option<GeminiTable>, body: string)
    requires g.Some? ==> SingleLine(g.value.trigger) && SingleLine(g.value.description)
    ensures ParseGemini(RenderGemini(g) + RenderDocumentation(body))
         == Some((g, RenderDocumentation(body)))
  {
    var d := RenderDocumentation(body);
    match g
    case None =>
      assert RenderGemini(g) + d == d;
      assert d[2] == 'd';
      DiffersAt(d, GeminiHeading, 2);
    case Some(t) =>
      ParseGeminiTableOf(t, d);
  }

  lemma ParseGeminiTableOf(t: GeminiTable, d: string)
    requires SingleLine(t.trigger) && SingleLine(t.description)
    ensures ParseGemini(RenderGemini(Some(t)) + d) == Some((Some(t), d))
  {
    var l1, l2 := Quoted("trigger", t.trigger), Quoted("description", t.description);
    QuotedSingleLine("trigger", t.trigger);
    QuotedSingleLine("description", t.description);
    QuotedValueOf("trigger", t.trigger);
    QuotedValueOf("description", t.description);
    RenderGeminiText(t, d);
    ParseGeminiLines(RenderGemini(Some(t)) + d, l1, l2, d);
  }

  lemma RenderGeminiText(t: GeminiTable, d: string)
    ensures RenderGemini(Some(t)) + d
         == GeminiHeading + (Quoted("trigger", t.trigger) + "\n" + (Quoted("description", t.description) + "\n" + d))
  {
    LinesAfter(GeminiHeading, Quoted("trigger", t.trigger), Quoted("description", t.description), d);
  }

  lemma LinesAfter(a: string, l1: string, l2: string, d: string)
    ensures a + Line(l1) + Line(l2) + d == a + (l1 + "\n" + (l2 + "\n" + d))
  {
  }

  /** The two lines after the `[command.gemini]` heading are read as the
      trigger and the description. */
  lemma ParseGeminiLines(s: string, l1: string, l2: string, rest: string)
    requires s == GeminiHeading + (l1 + "\n" + (l2 + "\n" + rest))
    requires SingleLine(l1) && SingleLine(l2)
    requires QuotedValue(l1, "trigger").Some? && QuotedValue(l2, "description").Some?
    ensures ParseGemini(s) == Some((Some(GeminiTable(QuotedValue(l1, "trigger").value, QuotedValue(l2, "description").value)), rest))
  {
    assert s[..|GeminiHeading|] == GeminiHeading;
    assert s[|GeminiHeading|..] == l1 + "\n" + (l2 + "\n" + rest);
    TakeLineOf(l1, l2 + "\n" + rest);
    TakeLineOf(l2, rest);
  }

  lemma ParseTablesOf(g: Option<GeminiTable>, body: string)
    requires g.Some? ==> SingleLine(g.value.trigger) && SingleLine(g.value.description)
    ensures ParseTables(RenderGemini(g) + RenderDocumentation(body)) == Some((g, body))
  {
    ParseGeminiOf(g, body);
    ParseDocumentationOf(body);
  }

  lemma TablesOpenWithBlankLine(g: Option<GeminiTable>, body: string)
    ensures |RenderGemini(g) + RenderDocumentation(body)| > 0
    ensures (RenderGemini(g) + RenderDocumentation(body))[0] == '\n'
  {
  }

  /** The text after the `prerequisites` line holds no `phase` and no
      `prerequisites` line. */
  lemma AfterPrerequisites(creates: Option<seq<string>>, t3: string)
    requires creates.Some? ==> PlainItems(creates.value)
    requires |t3| > 0 && t3[0] == '\n'
    ensures ParsePhase(RenderList("creates", creates) + t3) == (None, RenderList("creates", creates) + t3)
    ensures ParseList(RenderList("creates", creates) + t3, "prerequisites") == (None, RenderList("creates", creates) + t3)
  {
    if creates.Some? {
      ListLineIsNoOtherField("creates", creates.value, t3);
    } else {
      assert RenderList("creates", creates) + t3 == t3;
      LeadingBlankLine(t3);
    }
  }

  /** The text after the `phase` line holds no `phase` line. */
  lemma AfterPhase(prerequisites: Option<seq<string>>, t2: string)
    requires prerequisites.Some? ==> PlainItems(prerequisites.value)
    requires ParsePhase(t2) == (None, t2)
    ensures ParsePhase(RenderList("prerequisites", prerequisites) + t2) == (None, RenderList("prerequisites", prerequisites) + t2)
  {
    if prerequisites.Some? {
      ListLineIsNoOtherField("prerequisites", prerequisites.value, t2);
    } else {
      assert RenderList("prerequisites", prerequisites) + t2 == t2;
    }
  }

  lemma ParseFieldsOf(m: Manifest)
    requires Readable(m)
    ensures ParseFields(RenderPhase(m.phase) + (RenderList("prerequisites", m.prerequisites)
              + (RenderList("creates", m.creates) + (RenderGemini(m.gemini) + RenderDocumentation(m.body)))))
         == Some((m.phase, m.prerequisites, m.creates, m.gemini, m.body))
  {
    var t3 := RenderGemini(m.gemini) + RenderDocumentation(m.body);
    var t2 := RenderList("creates", m.creates) + t3;
    var t1 := RenderList("prerequisites", m.prerequisites) + t2;
    TablesOpenWithBlankLine(m.gemini, m.body);
    LeadingBlankLine(t3);
    AfterPrerequisites(m.creates, t3);
    AfterPhase(m.prerequisites, t2);
    ParsePhaseOf(m.phase, t1);
    ParseListOf("prerequisites", m.prerequisites, t2);
    ParseListOf("creates", m.creates, t3);
    ParseTablesOf(m.gemini, m.body);
  }

  /** The manifest layout is lossless: reading a rendered manifest gives back
      every field, whenever the one-line values hold no line feed and the
      list items no double quote. The body may hold anything, `"""` included,
      since the reader takes everything up to the final `\n"""\n`. */
  lemma ParseRender(m: Manifest)
    requires Readable(m)
    ensures ParseManifest(Render(m)) == Some(m)
  {
    var t0 := RenderPhase(m.phase) + (RenderList("prerequisites", m.prerequisites)
              + (RenderList("creates", m.creates) + (RenderGemini(m.gemini) + RenderDocumentation(m.body))));
    ParseHeaderOf(m.name, m.description, t0);
    ParseFieldsOf(m);
  }

  /** A command whose front matter the loader accepts, with single-line,
      quote-free values (`Readable`), converts to a manifest
      that reads back as the loaded fields with their defaults filled in (the
      file name for the name and the trigger's `/name`, the empty string for
      the descriptions), and that ends with the `[documentation]` table holding
      exactly the text after the first closing marker, trimmed. */
  lemma ConvertDocument(header: string, rest: string, fileName: string, load: string -> Option<Frontmatter>)
    requires NoEarlyClosing(header)
    requires load(header).Some?
    requires Readable(ManifestOf(load(header).value, fileName, Trim(rest)))
    ensures ConvertMdToToml(Opening + header + Closing + rest, fileName, load).Some?
    ensures ParseManifest(ConvertMdToToml(Opening + header + Closing + rest, fileName, load).value)
         == Some(ManifestOf(load(header).value, fileName, Trim(rest)))
    ensures EndsWith(ConvertMdToToml(Opening + header + Closing + rest, fileName, load).value,
                     DocumentationHeading + Trim(rest) + DocumentationEnd)
  {
    var m := ManifestOf(load(header).value, fileName, Trim(rest));
    ConvertAccepted(header, rest, fileName, load);
    ParseRender(m);
  }

  /** Whatever the loaded values hold (line breaks and quotes included), a
      command whose front matter the loader accepts converts to a manifest
      that ends with the `[documentation]` table holding exactly the text after
      the first closing marker, trimmed. */
  lemma ConvertAccepted(header: string, rest: string, fileName: string, load: string -> Option<Frontmatter>)
    requires NoEarlyClosing(header)
    requires load(header).Some?
    ensures ConvertMdToToml(Opening + header + Closing + rest, fileName, load)
         == Some(Render(ManifestOf(load(header).value, fileName, Trim(rest))))
    ensures EndsWith(ConvertMdToToml(Opening + header + Closing + rest, fileName, load).value,
                     DocumentationHeading + Trim(rest) + DocumentationEnd)
  {
    SplitOfJoin(header, rest);
    RenderEndsWithDocumentation(ManifestOf(load(header).value, fileName, Trim(rest)));
  }

  /** A front matter the loader rejects (or the script's access to its fields
      throws) gives no manifest. */
  lemma ConvertRejected(header: string, rest: string, fileName: string, load: string -> Option<Frontmatter>)
    requires NoEarlyClosing(header)
    requires load(header).None?
    ensures ConvertMdToToml(Opening + header + Closing + rest, fileName, load).None?
  {
    SplitOfJoin(header, rest);
  }

  /** The converted manifest, read back, field by field: the name falls back
      to the file's base name and the description to the empty string; a
      `phase` line appears only for a non-empty phase; `prerequisites` and
      `creates` appear exactly when present, with their items in order; the
      `[command.gemini]` table appears exactly when `tools['gemini-cli']` is
      there, its trigger falling back to `/` + the base name; and the body is
      the text after the front matter, trimmed. */
  lemma ConvertFields(header: string, rest: string, fileName: string, load: string -> Option<Frontmatter>)
    requires NoEarlyClosing(header)
    requires load(header).Some?
    requires Readable(ManifestOf(load(header).value, fileName, Trim(rest)))
    ensures var fm := load(header).value;
      var t := ConvertMdToToml(Opening + header + Closing + rest, fileName, load);
      t.Some? && ParseManifest(t.value).Some? &&
      var m := ParseManifest(t.value).value;
      && m.name == (if Truthy(fm.name) then fm.name.value else fileName)
      && m.description == (if Truthy(fm.description) then fm.description.value else "")
      && (m.phase.Some? <==> Truthy(fm.phase))
      && (m.phase.Some? ==> m.phase == fm.phase)
      && m.prerequisites == fm.prerequisites
      && m.creates == fm.creates
      && (m.gemini.Some? <==> fm.geminiCli.Some?)
      && (m.gemini.Some? ==> m.gemini.value.trigger == OrElse(fm.geminiCli.value.trigger, "/" + fileName)
                             && m.gemini.value.description == OrElse(fm.geminiCli.value.description, ""))
      && m.body == Trim(rest)
  {
    ConvertDocument(header, rest, fileName, load);
  }
}
