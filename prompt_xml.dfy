/** The XML prompt serialiser: `generateXML` in src/App.jsx (the web builder) and in
    mcp-server.js (the MCP tools). On a form with every text field present the two differ only in
    the verification texts. They differ on an absent field: the MCP version reads it with `?.trim()`
    and skips it, the web version calls `.trim()` on it and throws; the web builder is modelled on
    complete forms (`Form`). A form becomes a document, the list of sections it holds, and the
    document is rendered to text. */
module PromptXml {
  import opened Wrappers
  import opened Text

  /** A builder form: the text fields and the four switches of `emptyForm`. `mustInclude` and
      `mustExclude` are the fields `include` and `exclude`; `include` is a Dafny keyword. */
  datatype Form = Form(task: string, context: string, audience: string, tone: string,
                       length: string, structure: string, style: string,
                       exampleGood: string, exampleBad: string,
                       mustInclude: string, mustExclude: string, requirements: string,
                       inputData: string,
                       useThinking: bool, usePromptingGuide: bool,
                       useCompletionCheck: bool, useContradictionCheck: bool)

  const EmptyForm := Form("", "", "", "", "", "", "", "", "", "", "", "", "", false, false, false, false)

  /** A `formData` object as stored, imported or sent to the MCP tools: a text field may be
      absent, and a switch is its truthiness. */
  datatype FormData = FormData(task: Option<string>, context: Option<string>, audience: Option<string>,
                               tone: Option<string>, length: Option<string>, structure: Option<string>,
                               style: Option<string>, exampleGood: Option<string>, exampleBad: Option<string>,
                               mustInclude: Option<string>, mustExclude: Option<string>, requirements: Option<string>,
                               inputData: Option<string>,
                               useThinking: bool, usePromptingGuide: bool,
                               useCompletionCheck: bool, useContradictionCheck: bool)

  /** `field?.trim()` is falsy for an absent field exactly as for an empty one. */
  function Normalize(d: FormData): Form {
    Form(d.task.GetOr(""), d.context.GetOr(""), d.audience.GetOr(""), d.tone.GetOr(""),
         d.length.GetOr(""), d.structure.GetOr(""), d.style.GetOr(""),
         d.exampleGood.GetOr(""), d.exampleBad.GetOr(""),
         d.mustInclude.GetOr(""), d.mustExclude.GetOr(""), d.requirements.GetOr(""),
         d.inputData.GetOr(""),
         d.useThinking, d.usePromptingGuide, d.useCompletionCheck, d.useContradictionCheck)
  }

  /** The form a web-builder form is when stored: every field present. */
  function Stored(f: Form): (d: FormData)
    ensures Normalize(d) == f
  {
    FormData(Some(f.task), Some(f.context), Some(f.audience), Some(f.tone),
             Some(f.length), Some(f.structure), Some(f.style),
             Some(f.exampleGood), Some(f.exampleBad),
             Some(f.mustInclude), Some(f.mustExclude), Some(f.requirements),
             Some(f.inputData),
             f.useThinking, f.usePromptingGuide, f.useCompletionCheck, f.useContradictionCheck)
  }

  // ---------------------------------------------------------------------------------
  // Documents

  datatype Section =
    | Instructions
    | Thinking
    | Task(text: string)
    | Context(text: string)
    | Audience(text: string)
    | Tone(text: string)
    | Format(length: Option<string>, structure: Option<string>, style: Option<string>)
    | Examples(good: Option<string>, bad: Option<string>)
    | Constraints(required: Option<string>, forbidden: Option<string>, requirements: Option<string>)
    | InputData(text: string)
    | Verification(completeness: bool, contradiction: bool)

  /** The fixed place of each section in a document. */
  function Rank(s: Section): nat {
    match s
    case Instructions => 0
    case Thinking => 1
    case Task(_) => 2
    case Context(_) => 3
    case Audience(_) => 4
    case Tone(_) => 5
    case Format(_, _, _) => 6
    case Examples(_, _) => 7
    case Constraints(_, _, _) => 8
    case InputData(_) => 9
    case Verification(_, _) => 10
  }

  /** A field as a child element: its trimmed text when that is not empty. */
  function Child(text: string): (r: Option<string>)
    ensures r.Some? <==> Trim(text) != ""
    ensures r.Some? ==> r.value == Trim(text)
  {
    if Trim(text) != "" then Some(Trim(text)) else None
  }

  /** `[s]` when `present` holds, nothing otherwise. */
  function IfSet(present: bool, s: Section): (r: seq<Section>)
    ensures |r| <= 1
  {
    if present then [s] else []
  }

  function GuidePart(f: Form): (r: seq<Section>)
    ensures |r| <= 1 && forall s :: s in r <==> s.Instructions? && Present(f, s)
  { IfSet(f.usePromptingGuide, Instructions) }
  function ThinkingPart(f: Form): (r: seq<Section>)
    ensures |r| <= 1 && forall s :: s in r <==> s.Thinking? && Present(f, s)
  { IfSet(f.useThinking, Thinking) }
  function TaskPart(f: Form): (r: seq<Section>)
    ensures |r| <= 1 && forall s :: s in r <==> s.Task? && Present(f, s)
  { IfSet(Trim(f.task) != "", Task(Trim(f.task))) }
  function ContextPart(f: Form): (r: seq<Section>)
    ensures |r| <= 1 && forall s :: s in r <==> s.Context? && Present(f, s)
  { IfSet(Trim(f.context) != "", Context(Trim(f.context))) }
  function AudiencePart(f: Form): (r: seq<Section>)
    ensures |r| <= 1 && forall s :: s in r <==> s.Audience? && Present(f, s)
  { IfSet(Trim(f.audience) != "", Audience(Trim(f.audience))) }
  function TonePart(f: Form): (r: seq<Section>)
    ensures |r| <= 1 && forall s :: s in r <==> s.Tone? && Present(f, s)
  { IfSet(Trim(f.tone) != "", Tone(Trim(f.tone))) }

  /** `<format>` appears when one of its children is non-blank. */
  function FormatPart(f: Form): (r: seq<Section>)
    ensures |r| <= 1 && forall s :: s in r <==> s.Format? && Present(f, s)
  {
    IfSet(Trim(f.length) != "" || Trim(f.structure) != "" || Trim(f.style) != "",
          Format(Child(f.length), Child(f.structure), Child(f.style)))
  }

  function ExamplesPart(f: Form): (r: seq<Section>)
    ensures |r| <= 1 && forall s :: s in r <==> s.Examples? && Present(f, s)
  {
    IfSet(Trim(f.exampleGood) != "" || Trim(f.exampleBad) != "", Examples(Child(f.exampleGood), Child(f.exampleBad)))
  }

  function ConstraintsPart(f: Form): (r: seq<Section>)
    ensures |r| <= 1 && forall s :: s in r <==> s.Constraints? && Present(f, s)
  {
    IfSet(Trim(f.mustInclude) != "" || Trim(f.mustExclude) != "" || Trim(f.requirements) != "",
          Constraints(Child(f.mustInclude), Child(f.mustExclude), Child(f.requirements)))
  }

  function InputPart(f: Form): (r: seq<Section>)
    ensures |r| <= 1 && forall s :: s in r <==> s.InputData? && Present(f, s)
  { IfSet(Trim(f.inputData) != "", InputData(Trim(f.inputData))) }

  function VerificationPart(f: Form): (r: seq<Section>)
    ensures |r| <= 1 && forall s :: s in r <==> s.Verification? && Present(f, s)
  {
    IfSet(f.useCompletionCheck || f.useContradictionCheck,
          Verification(f.useCompletionCheck, f.useContradictionCheck))
  }

  /** The sections a form produces, in rank order. */
  function Document(f: Form): seq<Section> {
    GuidePart(f) + ThinkingPart(f) + TaskPart(f) + ContextPart(f) + AudiencePart(f) + TonePart(f) +
    FormatPart(f) + ExamplesPart(f) + ConstraintsPart(f) + InputPart(f) + VerificationPart(f)
  }

  // ---------------------------------------------------------------------------------
  // Rendering

  /** The fixed texts of the `<instructions>`, `<thinking>`, `<completeness_check>` and
      `<contradiction_check>` blocks, which the web builder and the MCP server word differently. */
  datatype Boilerplate = Boilerplate(instructions: string, thinking: string,
                                     completeness: string, contradiction: string)

  const InstructionsBlock :=
    "  <instructions>\n" +
    "    Be specific and detailed in your response. Follow the task precisely.\n" +
    "    Use the provided context to inform your answer.\n" +
    "    Match the requested tone, audience, and format.\n" +
    "    If examples are provided, use them as a reference for style and quality.\n" +
    "    Respect all constraints \U{2014} include what is required and exclude what is forbidden.\n" +
    "  </instructions>\n"

  const ThinkingBlock :=
    "  <thinking>\n" +
    "    Before responding, think step by step:\n" +
    "    1. What exactly is being asked in the task?\n" +
    "    2. What context and constraints apply?\n" +
    "    3. What is the best approach to fulfill this request?\n" +
    "    4. Draft your response, then review it before finalizing.\n" +
    "  </thinking>\n"

  /** The texts of src/App.jsx. */
  const WebText := Boilerplate(InstructionsBlock, ThinkingBlock,
    "    <completeness_check>\n" +
    "      Before outputting your final response, review it to ensure every point\n" +
    "      and requirement from the task has been fully addressed. If anything is\n" +
    "      missing, add it before responding.\n" +
    "    </completeness_check>\n",
    "    <contradiction_check>\n" +
    "      Before outputting your final response, verify that nothing in your\n" +
    "      response contradicts the original task description. Ensure your output\n" +
    "      is fully aligned with what was requested.\n" +
    "    </contradiction_check>\n")

  /** The texts of mcp-server.js: the same two leading blocks, shorter checks. */
  const McpText := Boilerplate(InstructionsBlock, ThinkingBlock,
    "    <completeness_check>\n" +
    "      Before outputting your final response, review it to ensure every point\n" +
    "      and requirement from the task has been fully addressed.\n" +
    "    </completeness_check>\n",
    "    <contradiction_check>\n" +
    "      Before outputting your final response, verify that nothing in your\n" +
    "      response contradicts the original task description.\n" +
    "    </contradiction_check>\n")

  /** `text` followed by the element `open + child + close`, when the child is present. */
  function AppendChild(text: string, open: string, child: Option<string>, close: string): (r: string)
    ensures text <= r
  {
    if child.Some? then text + (open + child.value + close) else text
  }

  /** `text` followed by `block` when `on` holds. */
  function AppendIf(text: string, on: bool, block: string): (r: string)
    ensures text <= r
  {
    if on then text + block else text
  }

  /** `text` followed by the rendering of `s`. */
  function AppendSection(text: string, s: Section, b: Boilerplate): (r: string)
    ensures text <= r
  {
    match s
    case Instructions => text + b.instructions
    case Thinking => text + b.thinking
    case Task(t) => text + ("  <task>\n    " + t + "\n  </task>\n")
    case Context(t) => text + ("  <context>\n    " + t + "\n  </context>\n")
    case Audience(t) => text + ("  <audience>" + t + "</audience>\n")
    case Tone(t) => text + ("  <tone>" + t + "</tone>\n")
    case Format(l, st, sy) =>
      AppendChild(AppendChild(AppendChild(text + "  <format>\n",
        "    <length>", l, "</length>\n"), "    <structure>", st, "</structure>\n"),
        "    <style>", sy, "</style>\n") + "  </format>\n"
    case Examples(g, bad) =>
      AppendChild(AppendChild(text + "  <examples>\n",
        "    <example type=\"good\">\n      ", g, "\n    </example>\n"),
        "    <example type=\"bad\">\n      ", bad, "\n    </example>\n") + "  </examples>\n"
    case Constraints(i, e, r) =>
      AppendChild(AppendChild(AppendChild(text + "  <constraints>\n",
        "    <include>", i, "</include>\n"), "    <exclude>", e, "</exclude>\n"),
        "    <requirements>", r, "</requirements>\n") + "  </constraints>\n"
    case InputData(t) => text + ("  <input_data>\n    " + t + "\n  </input_data>\n")
    case Verification(c1, c2) =>
      AppendIf(AppendIf(text + "  <verification>\n", c1, b.completeness), c2, b.contradiction) +
      "  </verification>\n"
  }

  /** `<prompt>\n` followed by the rendered sections, in order. */
  function Opened(ss: seq<Section>, b: Boilerplate): string {
    if ss == [] then "<prompt>\n" else AppendSection(Opened(ss[..|ss| - 1], b), ss[|ss| - 1], b)
  }

  function Render(ss: seq<Section>, b: Boilerplate): string {
    Opened(ss, b) + "</prompt>"
  }

  /** `text` followed by the rendering of the one section `p` may hold. */
  function Extend(text: string, p: seq<Section>, b: Boilerplate): string {
    if p == [] then text else AppendSection(text, p[0], b)
  }

  lemma OpenedExtend(u: seq<Section>, p: seq<Section>, b: Boilerplate)
    requires |p| <= 1
    ensures Opened(u + p, b) == Extend(Opened(u, b), p, b)
  {
    if p != [] {
      assert (u + p)[..|u|] == u;
    } else {
      assert u + p == u;
    }
  }

  /** The document's text is the opening tag extended by each part in rank order. */
  lemma DocumentOpened(f: Form, b: Boilerplate)
    ensures Opened(Document(f), b) ==
      Extend(Extend(Extend(Extend(Extend(Extend(Extend(Extend(Extend(Extend(Extend("<prompt>\n",
        GuidePart(f), b), ThinkingPart(f), b), TaskPart(f), b), ContextPart(f), b), AudiencePart(f), b),
        TonePart(f), b), FormatPart(f), b), ExamplesPart(f), b), ConstraintsPart(f), b), InputPart(f), b),
        VerificationPart(f), b)
  {
    var d := GuidePart(f);
    OpenedExtend([], d, b);
    assert [] + d == d;
    OpenedExtend(d, ThinkingPart(f), b);
    d := d + ThinkingPart(f);
    OpenedExtend(d, TaskPart(f), b);
    d := d + TaskPart(f);
    OpenedExtend(d, ContextPart(f), b);
    d := d + ContextPart(f);
    OpenedExtend(d, AudiencePart(f), b);
    d := d + AudiencePart(f);
    OpenedExtend(d, TonePart(f), b);
    d := d + TonePart(f);
    OpenedExtend(d, FormatPart(f), b);
    d := d + FormatPart(f);
    OpenedExtend(d, ExamplesPart(f), b);
    d := d + ExamplesPart(f);
    OpenedExtend(d, ConstraintsPart(f), b);
    d := d + ConstraintsPart(f);
    OpenedExtend(d, InputPart(f), b);
    d := d + InputPart(f);
    OpenedExtend(d, VerificationPart(f), b);
  }

  /** generateXML: the text is built by appending each section's text in turn, and it is the
      rendering of the form's document. */
  method GenerateXml(f: Form, b: Boilerplate) returns (xml: string)
    ensures xml == Render(Document(f), b)
  {
    xml := "<prompt>\n";
    xml := EmitGuide(xml, f, b);
    xml := EmitThinking(xml, f, b);
    xml := EmitTask(xml, f, b);
    xml := EmitContext(xml, f, b);
    xml := EmitAudience(xml, f, b);
    xml := EmitTone(xml, f, b);
    xml := EmitFormat(xml, f, b);
    xml := EmitExamples(xml, f, b);
    xml := EmitConstraints(xml, f, b);
    xml := EmitInput(xml, f, b);
    xml := EmitVerification(xml, f, b);
    DocumentOpened(f, b);
    xml := xml + "</prompt>";
  }

  /** The `<instructions>` block, when the prompting guide is switched on. */
  method EmitGuide(xml0: string, f: Form, b: Boilerplate) returns (xml: string)
    ensures xml == Extend(xml0, GuidePart(f), b)
  {
    xml := xml0;
    if f.usePromptingGuide {
      xml := xml + b.instructions;
    }
  }

  /** The `<thinking>` block, when step-by-step thinking is switched on. */
  method EmitThinking(xml0: string, f: Form, b: Boilerplate) returns (xml: string)
    ensures xml == Extend(xml0, ThinkingPart(f), b)
  {
    xml := xml0;
    if f.useThinking {
      xml := xml + b.thinking;
    }
  }

  /** The `<task>` element, when the trimmed task is not empty. */
  method EmitTask(xml0: string, f: Form, b: Boilerplate) returns (xml: string)
    ensures xml == Extend(xml0, TaskPart(f), b)
  {
    xml := xml0;
    if Trim(f.task) != "" {
      xml := xml + ("  <task>\n    " + Trim(f.task) + "\n  </task>\n");
    }
  }

  /** The `<context>` element, when the trimmed context is not empty. */
  method EmitContext(xml0: string, f: Form, b: Boilerplate) returns (xml: string)
    ensures xml == Extend(xml0, ContextPart(f), b)
  {
    xml := xml0;
    if Trim(f.context) != "" {
      xml := xml + ("  <context>\n    " + Trim(f.context) + "\n  </context>\n");
    }
  }

  /** The `<audience>` element, when the trimmed audience is not empty. */
  method EmitAudience(xml0: string, f: Form, b: Boilerplate) returns (xml: string)
    ensures xml == Extend(xml0, AudiencePart(f), b)
  {
    xml := xml0;
    if Trim(f.audience) != "" {
      xml := xml + ("  <audience>" + Trim(f.audience) + "</audience>\n");
    }
  }

  /** The `<tone>` element, when the trimmed tone is not empty. */
  method EmitTone(xml0: string, f: Form, b: Boilerplate) returns (xml: string)
    ensures xml == Extend(xml0, TonePart(f), b)
  {
    xml := xml0;
    if Trim(f.tone) != "" {
      xml := xml + ("  <tone>" + Trim(f.tone) + "</tone>\n");
    }
  }

  /** The `<format>` wrapper, when one of its children is non-blank. */
  method EmitFormat(xml0: string, f: Form, b: Boilerplate) returns (xml: string)
    ensures xml == Extend(xml0, FormatPart(f), b)
  {
    xml := xml0;
    var hasFormat := Trim(f.length) != "" || Trim(f.structure) != "" || Trim(f.style) != "";
    if hasFormat {
      xml := xml + "  <format>\n";
      if Trim(f.length) != "" {
        xml := xml + ("    <length>" + Trim(f.length) + "</length>\n");
      }
      if Trim(f.structure) != "" {
        xml := xml + ("    <structure>" + Trim(f.structure) + "</structure>\n");
      }
      if Trim(f.style) != "" {
        xml := xml + ("    <style>" + Trim(f.style) + "</style>\n");
      }
      xml := xml + "  </format>\n";
    }
  }

  /** The `<examples>` wrapper, when one of its children is non-blank. */
  method EmitExamples(xml0: string, f: Form, b: Boilerplate) returns (xml: string)
    ensures xml == Extend(xml0, ExamplesPart(f), b)
  {
    xml := xml0;
    var hasExamples := Trim(f.exampleGood) != "" || Trim(f.exampleBad) != "";
    if hasExamples {
      xml := xml + "  <examples>\n";
      if Trim(f.exampleGood) != "" {
        xml := xml + ("    <example type=\"good\">\n      " + Trim(f.exampleGood) + "\n    </example>\n");
      }
      if Trim(f.exampleBad) != "" {
        xml := xml + ("    <example type=\"bad\">\n      " + Trim(f.exampleBad) + "\n    </example>\n");
      }
      xml := xml + "  </examples>\n";
    }
  }

  /** The `<constraints>` wrapper, when one of its children is non-blank. */
  method EmitConstraints(xml0: string, f: Form, b: Boilerplate) returns (xml: string)
    ensures xml == Extend(xml0, ConstraintsPart(f), b)
  {
    xml := xml0;
    var hasConstraints := Trim(f.mustInclude) != "" || Trim(f.mustExclude) != "" || Trim(f.requirements) != "";
    if hasConstraints {
      xml := xml + "  <constraints>\n";
      if Trim(f.mustInclude) != "" {
        xml := xml + ("    <include>" + Trim(f.mustInclude) + "</include>\n");
      }
      if Trim(f.mustExclude) != "" {
        xml := xml + ("    <exclude>" + Trim(f.mustExclude) + "</exclude>\n");
      }
      if Trim(f.requirements) != "" {
        xml := xml + ("    <requirements>" + Trim(f.requirements) + "</requirements>\n");
      }
      xml := xml + "  </constraints>\n";
    }
  }

  /** The `<input_data>` element, when the trimmed input data is not empty. */
  method EmitInput(xml0: string, f: Form, b: Boilerplate) returns (xml: string)
    ensures xml == Extend(xml0, InputPart(f), b)
  {
    xml := xml0;
    if Trim(f.inputData) != "" {
      xml := xml + ("  <input_data>\n    " + Trim(f.inputData) + "\n  </input_data>\n");
    }
  }

  /** The `<verification>` wrapper, when either check is switched on. */
  method EmitVerification(xml0: string, f: Form, b: Boilerplate) returns (xml: string)
    ensures xml == Extend(xml0, VerificationPart(f), b)
  {
    xml := xml0;
    if f.useCompletionCheck || f.useContradictionCheck {
      xml := xml + "  <verification>\n";
      if f.useCompletionCheck {
        xml := xml + b.completeness;
      }
      if f.useContradictionCheck {
        xml := xml + b.contradiction;
      }
      xml := xml + "  </verification>\n";
    }
  }

  // ---------------------------------------------------------------------------------
  // Properties of documents

  /** Which sections a form's document holds: the reference statement of each presence rule. */
  predicate Present(f: Form, s: Section) {
    match s
    case Instructions => f.usePromptingGuide
    case Thinking => f.useThinking
    case Task(t) => Trim(f.task) != "" && t == Trim(f.task)
    case Context(t) => Trim(f.context) != "" && t == Trim(f.context)
    case Audience(t) => Trim(f.audience) != "" && t == Trim(f.audience)
    case Tone(t) => Trim(f.tone) != "" && t == Trim(f.tone)
    case Format(l, st, sy) =>
      (Trim(f.length) != "" || Trim(f.structure) != "" || Trim(f.style) != "") &&
      l == Child(f.length) && st == Child(f.structure) && sy == Child(f.style)
    case Examples(g, bad) =>
      (Trim(f.exampleGood) != "" || Trim(f.exampleBad) != "") &&
      g == Child(f.exampleGood) && bad == Child(f.exampleBad)
    case Constraints(i, e, r) =>
      (Trim(f.mustInclude) != "" || Trim(f.mustExclude) != "" || Trim(f.requirements) != "") &&
      i == Child(f.mustInclude) && e == Child(f.mustExclude) && r == Child(f.requirements)
    case InputData(t) => Trim(f.inputData) != "" && t == Trim(f.inputData)
    case Verification(c1, c2) =>
      (f.useCompletionCheck || f.useContradictionCheck) &&
      c1 == f.useCompletionCheck && c2 == f.useContradictionCheck
  }

  /** A section is in the document exactly when the form calls for it, with the trimmed text. */
  lemma DocumentContents(f: Form, s: Section)
    ensures s in Document(f) <==> Present(f, s)
  {
  }

  /** Ranks strictly increase along the list: the fixed order, and at most one section of each kind. */
  predicate Ranked(ss: seq<Section>) {
    forall i, j :: 0 <= i < j < |ss| ==> Rank(ss[i]) < Rank(ss[j])
  }

  /** Every section of `ss` ranks below `r`. */
  predicate Below(ss: seq<Section>, r: nat) {
    forall i :: 0 <= i < |ss| ==> Rank(ss[i]) < r
  }

  lemma RankedAppend(u: seq<Section>, p: seq<Section>, r: nat)
    requires Ranked(u) && Below(u, r)
    requires |p| <= 1 && forall i :: 0 <= i < |p| ==> Rank(p[i]) == r
    ensures Ranked(u + p) && Below(u + p, r + 1)
  {
    forall i, j | 0 <= i < j < |u + p| ensures Rank((u + p)[i]) < Rank((u + p)[j]) {
      if j >= |u| {
        assert (u + p)[j] == p[j - |u|];
        assert (u + p)[i] == u[i];
      }
    }
  }

  lemma RankedFields(f: Form)
    ensures var d := GuidePart(f) + ThinkingPart(f) + TaskPart(f) + ContextPart(f);
            Ranked(d) && Below(d, 4)
  {
    RankedAppend([], GuidePart(f), 0);
    assert [] + GuidePart(f) == GuidePart(f);
    RankedAppend(GuidePart(f), ThinkingPart(f), 1);
    RankedAppend(GuidePart(f) + ThinkingPart(f), TaskPart(f), 2);
    RankedAppend(GuidePart(f) + ThinkingPart(f) + TaskPart(f), ContextPart(f), 3);
  }

  lemma RankedMiddle(f: Form)
    ensures var d := GuidePart(f) + ThinkingPart(f) + TaskPart(f) + ContextPart(f) +
                     AudiencePart(f) + TonePart(f) + FormatPart(f);
            Ranked(d) && Below(d, 7)
  {
    var d := GuidePart(f) + ThinkingPart(f) + TaskPart(f) + ContextPart(f);
    RankedFields(f);
    RankedAppend(d, AudiencePart(f), 4);
    RankedAppend(d + AudiencePart(f), TonePart(f), 5);
    RankedAppend(d + AudiencePart(f) + TonePart(f), FormatPart(f), 6);
  }

  lemma RankedLate(f: Form)
    ensures var d := GuidePart(f) + ThinkingPart(f) + TaskPart(f) + ContextPart(f) +
                     AudiencePart(f) + TonePart(f) + FormatPart(f) + ExamplesPart(f) + ConstraintsPart(f);
            Ranked(d) && Below(d, 9)
  {
    var d := GuidePart(f) + ThinkingPart(f) + TaskPart(f) + ContextPart(f) +
             AudiencePart(f) + TonePart(f) + FormatPart(f);
    RankedMiddle(f);
    RankedAppend(d, ExamplesPart(f), 7);
    RankedAppend(d + ExamplesPart(f), ConstraintsPart(f), 8);
  }

  /** The sections come in the fixed order instructions, thinking, task, context, audience, tone,
      format, examples, constraints, input_data, verification. */
  lemma DocumentRanked(f: Form)
    ensures Ranked(Document(f))
  {
    var d := GuidePart(f) + ThinkingPart(f) + TaskPart(f) + ContextPart(f) +
             AudiencePart(f) + TonePart(f) + FormatPart(f) + ExamplesPart(f) + ConstraintsPart(f);
    RankedLate(f);
    RankedAppend(d, InputPart(f), 9);
    RankedAppend(d + InputPart(f), VerificationPart(f), 10);
  }

  lemma {:induction false} OpenedStarts(ss: seq<Section>, b: Boilerplate)
    ensures "<prompt>\n" <= Opened(ss, b)
  {
    if ss != [] {
      OpenedStarts(ss[..|ss| - 1], b);
    }
  }

  /** Every rendering starts with `<prompt>\n` and ends with `</prompt>`. */
  lemma RenderFramed(ss: seq<Section>, b: Boilerplate)
    ensures var r := Render(ss, b); |r| >= 18 && r[..9] == "<prompt>\n" && r[|r| - 9..] == "</prompt>"
  {
    OpenedStarts(ss, b);
  }

  /** The empty form renders to the bare frame. */
  lemma EmptyFormRender(b: Boilerplate)
    ensures Render(Document(EmptyForm), b) == "<prompt>\n</prompt>"
  {
    assert Document(EmptyForm) == [];
  }

  /** `hasContent`: the trimmed task or context is not empty. */
  predicate HasContent(f: Form) {
    Trim(f.task) != "" || Trim(f.context) != ""
  }

  /** A form has content exactly when its document holds a task or a context section. */
  lemma HasContentIff(f: Form)
    ensures HasContent(f) <==> exists s :: s in Document(f) && (s.Task? || s.Context?)
  {
    if Trim(f.task) != "" {
      DocumentContents(f, Task(Trim(f.task)));
    } else if Trim(f.context) != "" {
      DocumentContents(f, Context(Trim(f.context)));
    }
    forall s | s in Document(f) && (s.Task? || s.Context?) ensures HasContent(f) {
      DocumentContents(f, s);
    }
  }
  // ---------------------------------------------------------------------------------
  // The web builder and the MCP server

  /** A `<verification>` section with at least one check, the only section whose text depends on
      which program renders it. */
  predicate Checked(s: Section) {
    s.Verification? && (s.completeness || s.contradiction)
  }

  /** The two leading blocks are worded the same. */
  predicate SameLeadingBlocks(b1: Boilerplate, b2: Boilerplate) {
    b1.instructions == b2.instructions && b1.thinking == b2.thinking
  }

  /** Each check text of `b1` is longer than the one of `b2`. */
  predicate LongerChecks(b1: Boilerplate, b2: Boilerplate) {
    |b1.completeness| > |b2.completeness| && |b1.contradiction| > |b2.contradiction|
  }

  lemma {:induction false} OpenedAgree(ss: seq<Section>, b1: Boilerplate, b2: Boilerplate)
    requires SameLeadingBlocks(b1, b2)
    requires forall i :: 0 <= i < |ss| ==> !Checked(ss[i])
    ensures Opened(ss, b1) == Opened(ss, b2)
  {
    if ss != [] {
      OpenedAgree(ss[..|ss| - 1], b1, b2);
      assert !Checked(ss[|ss| - 1]);
    }
  }

  /** A section adds at least as much text with `b1` as with `b2`, and strictly more when it is
      a checked `<verification>`. */
  lemma SectionLonger(t1: string, t2: string, s: Section, b1: Boilerplate, b2: Boilerplate)
    requires SameLeadingBlocks(b1, b2) && LongerChecks(b1, b2)
    ensures |AppendSection(t1, s, b1)| - |t1| >= |AppendSection(t2, s, b2)| - |t2|
    ensures Checked(s) ==> |AppendSection(t1, s, b1)| - |t1| > |AppendSection(t2, s, b2)| - |t2|
  {
    match s
    case Format(l, st, sy) =>
      var u1 := t1 + "  <format>\n";
      var u2 := t2 + "  <format>\n";
      var v1 := AppendChild(u1, "    <length>", l, "</length>\n");
      var v2 := AppendChild(u2, "    <length>", l, "</length>\n");
      var w1 := AppendChild(v1, "    <structure>", st, "</structure>\n");
      var w2 := AppendChild(v2, "    <structure>", st, "</structure>\n");
      assert |w1| - |t1| == |w2| - |t2|;
    case Examples(g, bad) =>
      var u1 := t1 + "  <examples>\n";
      var u2 := t2 + "  <examples>\n";
      var v1 := AppendChild(u1, "    <example type=\"good\">\n      ", g, "\n    </example>\n");
      var v2 := AppendChild(u2, "    <example type=\"good\">\n      ", g, "\n    </example>\n");
      assert |v1| - |t1| == |v2| - |t2|;
    case Constraints(i, e, r) =>
      var u1 := t1 + "  <constraints>\n";
      var u2 := t2 + "  <constraints>\n";
      var v1 := AppendChild(u1, "    <include>", i, "</include>\n");
      var v2 := AppendChild(u2, "    <include>", i, "</include>\n");
      var w1 := AppendChild(v1, "    <exclude>", e, "</exclude>\n");
      var w2 := AppendChild(v2, "    <exclude>", e, "</exclude>\n");
      assert |w1| - |t1| == |w2| - |t2|;
    case Verification(c1, c2) =>
      var u1 := AppendIf(t1 + "  <verification>\n", c1, b1.completeness);
      var u2 := AppendIf(t2 + "  <verification>\n", c1, b2.completeness);
      assert |u1| - |t1| >= |u2| - |t2|;
    case _ =>
  }

  lemma {:induction false} OpenedLonger(ss: seq<Section>, b1: Boilerplate, b2: Boilerplate)
    requires SameLeadingBlocks(b1, b2) && LongerChecks(b1, b2)
    ensures |Opened(ss, b1)| >= |Opened(ss, b2)|
    ensures (exists i :: 0 <= i < |ss| && Checked(ss[i])) ==> |Opened(ss, b1)| > |Opened(ss, b2)|
  {
    if ss != [] {
      var u := ss[..|ss| - 1];
      OpenedLonger(u, b1, b2);
      SectionLonger(Opened(u, b1), Opened(u, b2), ss[|ss| - 1], b1, b2);
      if exists i :: 0 <= i < |ss| && Checked(ss[i]) {
        var i :| 0 <= i < |ss| && Checked(ss[i]);
        if i < |ss| - 1 {
          assert u[i] == ss[i];
        }
      }
    }
  }

  /** Two sections lists render to the same text with two sets of wordings that share the leading
      blocks and have longer check texts on one side exactly when no section is a checked
      `<verification>`. */
  lemma RenderAgreeIff(ss: seq<Section>, b1: Boilerplate, b2: Boilerplate)
    requires SameLeadingBlocks(b1, b2) && LongerChecks(b1, b2)
    ensures Render(ss, b1) == Render(ss, b2) <==> forall i :: 0 <= i < |ss| ==> !Checked(ss[i])
  {
    OpenedLonger(ss, b1, b2);
    if forall i :: 0 <= i < |ss| ==> !Checked(ss[i]) {
      OpenedAgree(ss, b1, b2);
    }
  }

  /** The web builder's and the MCP server's `generateXML` return the same text for a form exactly
      when neither check is switched on. */
  lemma WebAndMcpAgreeIff(f: Form)
    ensures Render(Document(f), WebText) == Render(Document(f), McpText) <==>
            !f.useCompletionCheck && !f.useContradictionCheck
  {
    var d := Document(f);
    RenderAgreeIff(d, WebText, McpText);
    if f.useCompletionCheck || f.useContradictionCheck {
      var v := Verification(f.useCompletionCheck, f.useContradictionCheck);
      DocumentContents(f, v);
      var i :| 0 <= i < |d| && d[i] == v;
      assert Checked(d[i]);
    } else {
      forall i | 0 <= i < |d| ensures !Checked(d[i]) {
        DocumentContents(f, d[i]);
      }
    }
  }
}
