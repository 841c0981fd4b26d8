/** The MCP server (mcp-server.js): reading the saved prompts, the `get_prompt` lookup and the
    `build_prompt` tool, both of which render with the MCP wording of `generateXML`. */
module Mcp {
  import opened Wrappers
  import opened Text
  import opened PromptXml
  import opened Seqs
  import opened Store
  import ServerRoutes

  /** A row of the prompts-with-owner query. `formData` is the result of parsing the stored
      `form_data` text: `None` when it is not valid JSON. */
  datatype Row = Row(id: nat, description: string, formData: Option<FormData>, createdAt: string, owner: string)

  /** A prompt as `readPrompts` returns it. */
  datatype Prompt = Prompt(id: nat, description: string, formData: FormData, createdAt: string, owner: string)

  /** Every row's form data parses. */
  predicate AllParse(rows: seq<Row>) {
    forall i :: 0 <= i < |rows| ==> rows[i].formData.Some?
  }

  function ToPrompt(r: Row): Prompt
    requires r.formData.Some?
  {
    Prompt(r.id, r.description, r.formData.value, r.createdAt, r.owner)
  }

  /** The rows converted one by one, in order (the `map`), provided every form parses. */
  function Convert(rows: seq<Row>): (ps: seq<Prompt>)
    requires AllParse(rows)
    ensures |ps| == |rows|
    ensures forall i :: 0 <= i < |rows| ==> ps[i] == ToPrompt(rows[i])
  {
    if rows == [] then [] else [ToPrompt(rows[0])] + Convert(rows[1..])
  }

  /** readPrompts. `query` is the result of the query, newest first, or `None` when it fails; a
      form that does not parse makes the whole call fail as well, since it throws inside the same
      `try`. Either failure gives the empty list. */
  function ReadPrompts(query: Option<seq<Row>>): (ps: seq<Prompt>)
    ensures query.None? ==> ps == []
    ensures query.Some? && !AllParse(query.value) ==> ps == []
    ensures query.Some? && AllParse(query.value) ==>
      |ps| == |query.value| && forall i :: 0 <= i < |ps| ==> ps[i] == ToPrompt(query.value[i])
  {
    if query.Some? && AllParse(query.value) then Convert(query.value) else []
  }

  /** Newest first, by the `created_at` text. */
  predicate NewestFirst(ps: seq<Prompt>) {
    forall i, j :: 0 <= i < j < |ps| ==> StrLe(ps[j].createdAt, ps[i].createdAt)
  }

  /** The row's owner exists: the `JOIN users` keeps the row. */
  function HasOwner(us: seq<User>): PromptRow -> bool {
    (p: PromptRow) => HasUser(us, p.userId)
  }

  /** The query row of a prompt row: its columns and the owner's display name. The routes store
      `form_data` as the JSON text of a `FormData` value, so it parses back to that value. */
  function RowOf(p: PromptRow, us: seq<User>): Row
    requires HasUser(us, p.userId)
  {
    Row(p.id, p.description, Some(p.formData), p.createdAt, ServerRoutes.Author(us, p.userId).displayName)
  }

  /** The prompt `readPrompts` returns for a stored row. */
  function PromptOf(p: PromptRow, us: seq<User>): Prompt
    requires HasUser(us, p.userId)
  {
    Prompt(p.id, p.description, p.formData, p.createdAt, ServerRoutes.Author(us, p.userId).displayName)
  }

  function OwnedRows(ps: seq<PromptRow>, us: seq<User>): (rows: seq<Row>)
    requires forall p :: p in ps ==> HasUser(us, p.userId)
    ensures |rows| == |ps| && forall i :: 0 <= i < |ps| ==> rows[i] == RowOf(ps[i], us)
  {
    if ps == [] then [] else [RowOf(ps[0], us)] + OwnedRows(ps[1..], us)
  }

  /** The rows the query keeps, in its order: every prompt row whose owner exists, public or
      not, sorted newest first. */
  function Queried(t: Tables): (ps: seq<PromptRow>)
    ensures forall p :: p in ps <==> p in t.prompts && HasUser(t.users, p.userId)
  {
    var sorted := ServerRoutes.SortNewest(t.prompts);
    assert forall p :: p in sorted <==> p in t.prompts by {
      forall p ensures p in sorted <==> p in t.prompts {
        assert p in sorted <==> p in multiset(sorted);
      }
    }
    Filter(sorted, HasOwner(t.users))
  }

  /** The prompts-with-owner query over the tables. */
  function QueryRows(t: Tables): (rows: seq<Row>)
    ensures AllParse(rows)
  {
    OwnedRows(Queried(t), t.users)
  }

  /** The `ORDER BY created_at DESC` of the query, with the rows the join drops left out,
      survives the conversion. */
  lemma ReadPromptsNewestFirst(t: Tables)
    ensures NewestFirst(ReadPrompts(Some(QueryRows(t))))
  {
    var sorted := ServerRoutes.SortNewest(t.prompts);
    var rel := (a: PromptRow, b: PromptRow) => StrLe(b.createdAt, a.createdAt);
    assert Pairwise(sorted, rel);
    FilterPairwise(sorted, HasOwner(t.users), rel);
    var ps := Queried(t);
    assert Pairwise(ps, rel);
    var out := ReadPrompts(Some(QueryRows(t)));
    forall i, j | 0 <= i < j < |out| ensures StrLe(out[j].createdAt, out[i].createdAt) {
      assert rel(ps[i], ps[j]);
    }
  }

  /** Every stored prompt whose owner exists is listed, private ones included, and nothing else
      is. */
  lemma ReadPromptsListsAll(t: Tables)
    ensures forall p :: p in t.prompts && HasUser(t.users, p.userId) ==>
      PromptOf(p, t.users) in ReadPrompts(Some(QueryRows(t)))
    ensures forall q :: q in ReadPrompts(Some(QueryRows(t))) ==>
      exists p :: p in t.prompts && HasUser(t.users, p.userId) && q == PromptOf(p, t.users)
  {
    var ps := Queried(t);
    var out := ReadPrompts(Some(QueryRows(t)));
    forall p | p in t.prompts && HasUser(t.users, p.userId) ensures PromptOf(p, t.users) in out {
      var i :| 0 <= i < |ps| && ps[i] == p;
      assert out[i] == PromptOf(p, t.users);
    }
    forall q | q in out ensures exists p :: p in t.prompts && HasUser(t.users, p.userId) && q == PromptOf(p, t.users) {
      var i :| 0 <= i < |out| && out[i] == q;
      assert ps[i] in ps;
    }
  }

  /** One unreadable form hides every prompt. */
  lemma OneBadRowHidesAll(rows: seq<Row>, k: nat)
    requires k < |rows| && rows[k].formData.None?
    ensures ReadPrompts(Some(rows)) == []
  {
  }

  // ---------------------------------------------------------------------------------
  // get_prompt

  /** The prompt's id, as `String(p.id)` writes it, is the query. */
  predicate IdMatch(p: Prompt, query: string) {
    NatToString(p.id) == query
  }

  /** The lower-cased description contains the lower-cased query. */
  predicate DescriptionMatch(p: Prompt, query: string) {
    Contains(Lower(p.description), Lower(query))
  }

  /** `find`: the index of the first prompt with an id match. */
  function FindId(ps: seq<Prompt>, query: string): (r: Option<nat>)
    ensures r.Some? ==> r.value < |ps| && IdMatch(ps[r.value], query) &&
                        forall i :: 0 <= i < r.value ==> !IdMatch(ps[i], query)
    ensures r.None? ==> forall i :: 0 <= i < |ps| ==> !IdMatch(ps[i], query)
  {
    if ps == [] then None
    else if IdMatch(ps[0], query) then Some(0)
    else match FindId(ps[1..], query)
      case None => None
      case Some(k) => Some(k + 1)
  }

  /** `find`: the index of the first prompt with a description match. */
  function FindDescription(ps: seq<Prompt>, query: string): (r: Option<nat>)
    ensures r.Some? ==> r.value < |ps| && DescriptionMatch(ps[r.value], query) &&
                        forall i :: 0 <= i < r.value ==> !DescriptionMatch(ps[i], query)
    ensures r.None? ==> forall i :: 0 <= i < |ps| ==> !DescriptionMatch(ps[i], query)
  {
    if ps == [] then None
    else if DescriptionMatch(ps[0], query) then Some(0)
    else match FindDescription(ps[1..], query)
      case None => None
      case Some(k) => Some(k + 1)
  }

  /** The matching rule of `get_prompt`: an id match first, then a description match. */
  function FindPrompt(ps: seq<Prompt>, query: string): (r: Option<Prompt>)
    ensures r.Some? ==> r.value in ps
  {
    match FindId(ps, query)
    case Some(i) => Some(ps[i])
    case None =>
      match FindDescription(ps, query)
      case Some(i) => Some(ps[i])
      case None => None
  }

  /** A prompt whose id matches wins over every description match, wherever it is in the list. */
  lemma IdMatchWins(ps: seq<Prompt>, query: string, k: nat)
    requires k < |ps| && IdMatch(ps[k], query)
    ensures FindPrompt(ps, query).Some? && IdMatch(FindPrompt(ps, query).value, query)
  {
  }

  /** Without an id match, the result is the first prompt, in list order, with a description match. */
  lemma DescriptionFallback(ps: seq<Prompt>, query: string, k: nat)
    requires forall i :: 0 <= i < |ps| ==> !IdMatch(ps[i], query)
    requires k < |ps| && DescriptionMatch(ps[k], query) && forall i :: 0 <= i < k ==> !DescriptionMatch(ps[i], query)
    ensures FindPrompt(ps, query) == Some(ps[k])
  {
    var r := FindDescription(ps, query);
    assert r.Some?;
    if r.value < k {
    } else if r.value > k {
    }
  }

  /** No match of either kind: nothing is found. */
  lemma NoMatchNotFound(ps: seq<Prompt>, query: string)
    ensures FindPrompt(ps, query).None? <==>
            forall i :: 0 <= i < |ps| ==> !IdMatch(ps[i], query) && !DescriptionMatch(ps[i], query)
  {
    if FindPrompt(ps, query).None? {
      assert FindId(ps, query).None? && FindDescription(ps, query).None?;
    }
  }

  function NotFoundText(query: string): string {
    "No prompt found matching \"" + query + "\". Use list_prompts to see available prompts."
  }

  /** The text returned for a found prompt. */
  function FoundText(p: Prompt, xml: string): string {
    "Prompt: " + p.description + "\n\n" + xml
  }

  /** The two replies start differently, so a reply without a match never carries a prompt. */
  lemma RepliesDiffer(query: string, p: Prompt, xml: string)
    ensures NotFoundText(query) != FoundText(p, xml)
  {
    assert NotFoundText(query)[0] == 'N';
    assert FoundText(p, xml)[0] == 'P';
  }

  /** get_prompt: the text for the prompt `FindPrompt` selects from the list, with its form
      rendered in the MCP wording (an absent field counting as empty), or the not-found text. */
  method GetPrompt(query: Option<seq<Row>>, q: string) returns (text: string)
    ensures FindPrompt(ReadPrompts(query), q).None? ==> text == NotFoundText(q)
    ensures FindPrompt(ReadPrompts(query), q).Some? ==>
      var p := FindPrompt(ReadPrompts(query), q).value;
      text == FoundText(p, Render(Document(Normalize(p.formData)), McpText))
  {
    var ps := ReadPrompts(query);
    var found := FindPrompt(ps, q);
    if found.None? {
      return NotFoundText(q);
    }
    var xml := GenerateXml(Normalize(found.value.formData), McpText);
    text := FoundText(found.value, xml);
  }

  // ---------------------------------------------------------------------------------
  // build_prompt

  /** The arguments `build_prompt` accepts. Its schema lists a required task and optional
      context, audience, tone, length, structure, style, include, exclude, requirements and the
      four switches; other keys are stripped, so examples and input data never reach the
      serialiser. */
  datatype BuildArgs = BuildArgs(task: string, context: Option<string>, audience: Option<string>,
                                 tone: Option<string>, length: Option<string>, structure: Option<string>,
                                 style: Option<string>, mustInclude: Option<string>,
                                 mustExclude: Option<string>, requirements: Option<string>,
                                 useThinking: Option<bool>, usePromptingGuide: Option<bool>,
                                 useCompletionCheck: Option<bool>, useContradictionCheck: Option<bool>)

  /** The arguments as the form data `generateXML` reads; an absent switch is falsy. */
  function ArgsData(a: BuildArgs): (d: FormData)
    ensures d.exampleGood.None? && d.exampleBad.None? && d.inputData.None?
    ensures d.task == Some(a.task)
  {
    FormData(Some(a.task), a.context, a.audience, a.tone, a.length, a.structure, a.style,
             None, None, a.mustInclude, a.mustExclude, a.requirements, None,
             a.useThinking.GetOr(false), a.usePromptingGuide.GetOr(false),
             a.useCompletionCheck.GetOr(false), a.useContradictionCheck.GetOr(false))
  }

  /** build_prompt: `generateXML(params)` in the MCP wording. */
  method BuildPrompt(a: BuildArgs) returns (xml: string)
    ensures xml == Render(Document(Normalize(ArgsData(a))), McpText)
  {
    xml := GenerateXml(Normalize(ArgsData(a)), McpText);
  }

  /** A built prompt never holds an `<examples>` or `<input_data>` section. */
  lemma BuiltHasNoExamplesOrInput(a: BuildArgs, s: Section)
    requires s in Document(Normalize(ArgsData(a)))
    ensures !s.Examples? && !s.InputData?
  {
    var f := Normalize(ArgsData(a));
    assert f.exampleGood == "" && f.exampleBad == "" && f.inputData == "";
    assert Trim("") == "";
    DocumentContents(f, s);
  }
}
