/** The community page (src/components/CommunityPage.jsx): the search filter over the public
    prompts and the quick-copy XML, which holds only the task, context, audience and tone. */
module Community {
  import opened Wrappers
  import opened Text
  import opened Seqs
  import opened PromptXml

  /** An entry of `GET /api/prompts/public` as the page holds it. `authorName` is
      `author.displayName`, which the users table may leave empty. */
  datatype PublicPrompt = PublicPrompt(id: nat, description: string, formData: FormData, authorName: Option<string>)

  /** The search term, lower-cased but not trimmed, occurs in the lower-cased description, task
      (an absent task read as empty) or author display name. */
  predicate Matches(p: PublicPrompt, search: string) {
    var q := Lower(search);
    Contains(Lower(p.description), q) ||
    Contains(Lower(p.formData.task.GetOr("")), q) ||
    Contains(Lower(p.authorName.GetOr("")), q)
  }

  /** `filtered`: the whole list for a blank search, otherwise the matching prompts in order. */
  function Filtered(prompts: seq<PublicPrompt>, search: string): (r: seq<PublicPrompt>)
    ensures Trim(search) == "" ==> r == prompts
    ensures Trim(search) != "" ==> forall p :: p in r <==> p in prompts && Matches(p, search)
  {
    if Trim(search) != "" then Filter(prompts, p => Matches(p, search)) else prompts
  }

  /** The filter keeps the relative order: filtering a list of two parts is filtering each part. */
  lemma FilteredConcat(a: seq<PublicPrompt>, b: seq<PublicPrompt>, search: string)
    ensures Filtered(a + b, search) == Filtered(a, search) + Filtered(b, search)
  {
    if Trim(search) != "" {
      FilterConcat(a, b, p => Matches(p, search));
    }
  }

  /** A search that every prompt matches leaves the list unchanged. */
  lemma FilteredAllMatch(prompts: seq<PublicPrompt>, search: string)
    requires forall p :: p in prompts ==> Matches(p, search)
    ensures Filtered(prompts, search) == prompts
  {
    if Trim(search) != "" {
      FilterKeepsAll(prompts, p => Matches(p, search));
    }
  }

  /** The search is not trimmed: a term with a trailing space matches only text holding that
      space, so "code " does not match the description "code". */
  lemma SearchNotTrimmed()
    ensures !Matches(PublicPrompt(0, "code", EmptyData, None), "code ")
  {
    assert Lower("code ") == "code ";
    assert Lower("code") == "code";
    assert Lower("") == "";
  }

  /** A stored form with every field absent and every switch off. */
  const EmptyData := FormData(None, None, None, None, None, None, None, None, None, None, None, None, None,
                              false, false, false, false)

  /** The sections of the quick copy: the first four text parts of the form. */
  function QuickDocument(f: Form): seq<Section> {
    TaskPart(f) + ContextPart(f) + AudiencePart(f) + TonePart(f)
  }

  /** The form reduced to the four fields the quick copy reads. */
  function QuickForm(f: Form): (q: Form)
    ensures q.task == f.task && q.context == f.context && q.audience == f.audience && q.tone == f.tone
  {
    EmptyForm.(task := f.task, context := f.context, audience := f.audience, tone := f.tone)
  }

  /** The quick copy is the full serialiser applied to the reduced form, so the presence and order
      rules of the document hold for it. */
  lemma QuickIsDocument(f: Form)
    ensures QuickDocument(f) == Document(QuickForm(f))
  {
    var q := QuickForm(f);
    assert Trim("") == "";
    assert GuidePart(q) == [] && ThinkingPart(q) == [] && FormatPart(q) == [] && ExamplesPart(q) == [];
    assert ConstraintsPart(q) == [] && InputPart(q) == [] && VerificationPart(q) == [];
    assert TaskPart(q) == TaskPart(f) && ContextPart(q) == ContextPart(f);
    assert AudiencePart(q) == AudiencePart(f) && TonePart(q) == TonePart(f);
    var d := [] + [] + TaskPart(f) + ContextPart(f) + AudiencePart(f) + TonePart(f) + [] + [] + [] + [] + [];
    assert d == QuickDocument(f);
  }

  /** A section is in the quick copy exactly when it is a task, context, audience or tone section
      the form calls for. */
  lemma QuickContents(f: Form, s: Section)
    ensures s in QuickDocument(f) <==> (s.Task? || s.Context? || s.Audience? || s.Tone?) && Present(f, s)
  {
  }

  /** The quick-copy sections come in the order task, context, audience, tone. */
  lemma QuickRanked(f: Form)
    ensures Ranked(QuickDocument(f))
  {
    QuickIsDocument(f);
    DocumentRanked(QuickForm(f));
  }

  /** handleCopyXml: the text is built by appending the four elements in turn, and it is the
      rendering of the quick document. */
  method QuickCopyXml(p: PublicPrompt) returns (xml: string)
    ensures xml == Render(QuickDocument(Normalize(p.formData)), WebText)
  {
    var f := Normalize(p.formData);
    xml := "<prompt>\n";
    xml := EmitTask(xml, f, WebText);
    xml := EmitContext(xml, f, WebText);
    xml := EmitAudience(xml, f, WebText);
    xml := EmitTone(xml, f, WebText);
    QuickOpened(f, WebText);
    xml := xml + "</prompt>";
  }

  lemma QuickOpened(f: Form, b: Boilerplate)
    ensures Opened(QuickDocument(f), b) ==
      Extend(Extend(Extend(Extend("<prompt>\n", TaskPart(f), b), ContextPart(f), b), AudiencePart(f), b), TonePart(f), b)
  {
    var d := TaskPart(f);
    OpenedExtend([], d, b);
    assert [] + d == d;
    OpenedExtend(d, ContextPart(f), b);
    d := d + ContextPart(f);
    OpenedExtend(d, AudiencePart(f), b);
    d := d + AudiencePart(f);
    OpenedExtend(d, TonePart(f), b);
  }
}
