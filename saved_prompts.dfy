/** The saved-prompt list of the web builder (src/App.jsx): the description sent when a prompt
    is saved, and the three updates of the list held in the page state. */
module SavedPrompts {
  import opened Wrappers
  import opened Text
  import opened Seqs
  import opened PromptXml

  /** An entry of the list, as `GET /api/prompts` and `POST /api/prompts` return it. */
  datatype SavedPrompt = SavedPrompt(id: nat, description: string, formData: FormData, createdAt: string, isPublic: bool)

  const DescriptionLimit: nat := 40

  /** savePrompt: no request for a blank description; otherwise the trimmed description cut to
      its first 40 characters. */
  function SaveDescription(input: string): (r: Option<string>)
    ensures r.None? <==> Trim(input) == ""
    ensures r.Some? ==> |r.value| <= DescriptionLimit && r.value <= Trim(input)
    ensures r.Some? && |Trim(input)| <= DescriptionLimit ==> r.value == Trim(input)
  {
    if Trim(input) == "" then None else Some(Take(Trim(input), DescriptionLimit))
  }

  /** A saved description is never blank: it starts with a character that is not white space. */
  lemma SaveDescriptionStartsWithText(input: string)
    requires Trim(input) != ""
    ensures var d := SaveDescription(input).value; d != [] && !IsWhitespace(d[0])
  {
    TrimEnds(input);
  }

  /** The server cuts the description to 40 characters again, which changes nothing. */
  lemma ServerCutIsIdentity(input: string)
    requires Trim(input) != ""
    ensures Take(SaveDescription(input).value, DescriptionLimit) == SaveDescription(input).value
  {
  }

  /** After the response: the new prompt goes to the front when the request succeeded. */
  function AfterSave(prev: seq<SavedPrompt>, created: Option<SavedPrompt>): (r: seq<SavedPrompt>)
    ensures created.None? ==> r == prev
    ensures created.Some? ==> |r| == |prev| + 1 && r[0] == created.value && r[1..] == prev
  {
    if created.Some? then [created.value] + prev else prev
  }

  /** togglePromptVisibility, after a successful request: `isPublic` becomes `v` on the entries
      with the id, the rest are kept. */
  function Toggled(prev: seq<SavedPrompt>, id: nat, v: bool): (r: seq<SavedPrompt>)
    ensures |r| == |prev|
    ensures forall i :: 0 <= i < |prev| ==>
      r[i] == if prev[i].id == id then prev[i].(isPublic := v) else prev[i]
  {
    if prev == [] then []
    else [if prev[0].id == id then prev[0].(isPublic := v) else prev[0]] + Toggled(prev[1..], id, v)
  }

  /** Toggling touches nothing but the `isPublic` flag of the entries with the id. */
  lemma ToggledOnlyFlag(prev: seq<SavedPrompt>, id: nat, v: bool, i: nat)
    requires i < |prev|
    ensures var r := Toggled(prev, id, v);
      r[i].id == prev[i].id && r[i].description == prev[i].description &&
      r[i].formData == prev[i].formData && r[i].createdAt == prev[i].createdAt &&
      r[i].isPublic == (if prev[i].id == id then v else prev[i].isPublic)
  {
  }

  /** A second toggle to the same value changes nothing. */
  lemma ToggledIdempotent(prev: seq<SavedPrompt>, id: nat, v: bool)
    ensures Toggled(Toggled(prev, id, v), id, v) == Toggled(prev, id, v)
  {
  }

  /** Toggling back restores the list when every entry with the id had the old value. */
  lemma ToggledBack(prev: seq<SavedPrompt>, id: nat, v: bool)
    requires forall i :: 0 <= i < |prev| && prev[i].id == id ==> prev[i].isPublic == !v
    ensures Toggled(Toggled(prev, id, v), id, !v) == prev
  {
  }

  /** deletePrompt: the entries with the id are removed at once, before the request. */
  function Deleted(prev: seq<SavedPrompt>, id: nat): (r: seq<SavedPrompt>)
    ensures forall p :: p in r <==> p in prev && p.id != id
  {
    Filter(prev, (p: SavedPrompt) => p.id != id)
  }

  /** Deletion keeps the order of the rest: deleting from two parts is deleting from each part. */
  lemma DeletedConcat(a: seq<SavedPrompt>, b: seq<SavedPrompt>, id: nat)
    ensures Deleted(a + b, id) == Deleted(a, id) + Deleted(b, id)
  {
    FilterConcat(a, b, (p: SavedPrompt) => p.id != id);
  }

  /** Deleting an id no entry has leaves the list unchanged. */
  lemma DeletedAbsent(prev: seq<SavedPrompt>, id: nat)
    requires forall i :: 0 <= i < |prev| ==> prev[i].id != id
    ensures Deleted(prev, id) == prev
  {
    FilterKeepsAll(prev, (p: SavedPrompt) => p.id != id);
  }

  /** Deleting the prompt just saved, whose id is new, gives back the list before the save. */
  lemma DeleteUndoesSave(prev: seq<SavedPrompt>, p: SavedPrompt)
    requires forall i :: 0 <= i < |prev| ==> prev[i].id != p.id
    ensures Deleted(AfterSave(prev, Some(p)), p.id) == prev
  {
    DeletedConcat([p], prev, p.id);
    DeletedAbsent(prev, p.id);
    assert Deleted([p], p.id) == [];
  }
}
