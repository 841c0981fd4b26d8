/** lib/migrate.js: the one-time import of the legacy `prompts.json` file into the prompts table,
    run at start-up. The file system is a value: the legacy file, when present, is given by what
    reading and parsing it yields, and the rename moves it to `prompts.json.migrated`. */
module Migrate {
  import opened Wrappers
  import opened PromptXml
  import opened Store
  import opened Http

  /** An element of the legacy array. `whole` is the element itself read as form data, which is
      what gets stored when it has no `formData` of its own. `Unbindable` is an element whose
      insert throws: `null`, whose `description` cannot be read, or one whose `description` or
      `createdAt` is `true`, an object or an array, which SQLite cannot bind. */
  datatype Record =
    | Record(description: Option<string>, formData: Option<FormData>, createdAt: Option<string>, whole: FormData)
    | Unbindable

  /** Every element can be inserted. */
  predicate Bindable(rs: seq<Record>) {
    forall i :: 0 <= i < |rs| ==> rs[i].Record?
  }

  /** What reading and parsing the file yields: a read or parse failure, a value that is not an
      array, or the array's elements. */
  datatype Parsed = Unreadable | NotArray | Records(items: seq<Record>)

  datatype Disk = Disk(legacy: Option<Parsed>, migrated: Option<Parsed>)

  const DefaultDescription := "Imported prompt"

  /** The record's description when it is a non-empty text, otherwise the default. */
  function Description(r: Record): string
    requires r.Record?
  {
    if Given(r.description) then r.description.value else DefaultDescription
  }

  /** The record's own form data when it has one, otherwise the whole record. */
  function StoredForm(r: Record): FormData
    requires r.Record?
  {
    r.formData.GetOr(r.whole)
  }

  /** The record's creation time when it is a non-empty text, otherwise the current time. */
  function CreatedAt(r: Record, now: string): string
    requires r.Record?
  {
    if Given(r.createdAt) then r.createdAt.value else now
  }

  /** The row inserted for a record. */
  function ImportRow(r: Record, owner: nat, id: nat, now: string): PromptRow
    requires r.Record?
  {
    PromptRow(id, owner, Description(r), StoredForm(r), CreatedAt(r, now), false)
  }

  /** The rows for the records in order, with consecutive ids from `first`. */
  function ImportRows(rs: seq<Record>, owner: nat, first: nat, now: string): (ps: seq<PromptRow>)
    requires Bindable(rs)
    ensures |ps| == |rs|
  {
    if rs == [] then []
    else ImportRows(rs[..|rs| - 1], owner, first, now) + [ImportRow(rs[|rs| - 1], owner, first + |rs| - 1, now)]
  }

  /** The row of the `i`-th record holds it, with the `i`-th id. */
  lemma {:induction false} ImportRowsAt(rs: seq<Record>, owner: nat, first: nat, now: string, i: nat)
    requires Bindable(rs) && i < |rs|
    ensures ImportRows(rs, owner, first, now)[i] == ImportRow(rs[i], owner, first + i, now)
  {
    var k := |rs| - 1;
    if i < k {
      ImportRowsAt(rs[..k], owner, first, now, i);
    }
  }

  /** The records of a file worth importing: a readable, non-empty array. */
  function Importable(p: Parsed): Option<seq<Record>> {
    if p.Records? && p.items != [] then Some(p.items) else None
  }

  /** The tables and the disk after the call, and whether it threw. */
  datatype Outcome = Outcome(tables: Tables, disk: Disk, thrown: bool)

  /** The whole import as a function of the tables and the disk: each guard in turn leaves both
      as they were; an element whose insert throws rolls the transaction back, and the exception
      leaves the function before the rename; otherwise one row per record, all owned by the
      first user, and the file renamed. */
  function MigrateSpec(t: Tables, d: Disk, now: string): Outcome {
    if d.legacy.None? || |t.prompts| > 0 || Importable(d.legacy.value).None? || t.users == [] then Outcome(t, d, false)
    else
      var rs := Importable(d.legacy.value).value;
      if !Bindable(rs) then Outcome(t, d, true)
      else
        Outcome(t.(prompts := ImportRows(rs, t.users[0].id, t.lastPromptId + 1, now),
                   lastPromptId := t.lastPromptId + |rs|),
                Disk(None, d.legacy), false)
  }

  /** migrateJsonPrompts. The inserts run in one transaction: the owner exists and the statement
      does not name `is_public`, so the only insert that fails is that of an unbindable element,
      and then the transaction restores the tables as they were before it began. */
  method MigrateJsonPrompts(db: Db, disk: Disk, now: string) returns (after: Disk, thrown: bool)
    requires db.Valid()
    modifies db
    ensures db.Valid()
    ensures Outcome(db.State(), after, thrown) == MigrateSpec(old(db.State()), disk, now)
  {
    if disk.legacy.None? {
      return disk, false;
    }
    if |db.prompts| > 0 {
      return disk, false;
    }
    var records := Importable(disk.legacy.value);
    if records.None? {
      return disk, false;
    }
    if |db.users| == 0 {
      return disk, false;
    }
    var owner := db.users[0].id;
    assert HasUser(db.users, owner);
    var before := db.State();
    var ok := ImportAll(db, records.value, owner, now);
    if !ok {
      db.Commit(before);
      return disk, true;
    }
    ImportedRows(old(db.State()), owner, records.value, now);
    after, thrown := Disk(None, disk.legacy), false;
  }

  /** The tables after inserting the records one after the other, as the loop does. */
  function Imported(t: Tables, owner: nat, rs: seq<Record>, now: string): Tables
    requires Bindable(rs)
  {
    if rs == [] then t
    else
      var r := rs[|rs| - 1];
      AddPrompt(Imported(t, owner, rs[..|rs| - 1], now), owner, Description(r), StoredForm(r), CreatedAt(r, now), false)
  }

  /** Inserting the records one after the other into the empty table gives their rows with
      consecutive ids. */
  lemma {:induction false} ImportedRows(t: Tables, owner: nat, rs: seq<Record>, now: string)
    requires t.prompts == [] && Bindable(rs)
    ensures Imported(t, owner, rs, now) ==
      t.(prompts := ImportRows(rs, owner, t.lastPromptId + 1, now), lastPromptId := t.lastPromptId + |rs|)
  {
    if rs != [] {
      ImportedRows(t, owner, rs[..|rs| - 1], now);
    }
  }

  /** The transaction's loop: one insert per record, in order, until an insert throws. */
  method ImportAll(db: Db, rs: seq<Record>, owner: nat, now: string) returns (ok: bool)
    requires db.Valid() && HasUser(db.users, owner)
    modifies db
    ensures db.Valid() && (ok <==> Bindable(rs))
    ensures ok ==> db.State() == Imported(old(db.State()), owner, rs, now)
  {
    ghost var t0 := db.State();
    var k := 0;
    while k < |rs|
      invariant 0 <= k <= |rs|
      invariant db.Valid() && HasUser(db.users, owner)
      invariant Bindable(rs[..k]) && db.State() == Imported(t0, owner, rs[..k], now)
    {
      if rs[k].Unbindable? {
        return false;
      }
      ImportedStep(t0, owner, rs, k, now);
      var id := db.InsertPrompt(owner, Description(rs[k]), StoredForm(rs[k]), CreatedAt(rs[k], now), None);
      assert id.Some?;
      k := k + 1;
    }
    assert rs[..k] == rs;
    return true;
  }

  /** One more bindable record is one more insert. */
  lemma ImportedStep(t: Tables, owner: nat, rs: seq<Record>, k: nat, now: string)
    requires k < |rs| && Bindable(rs[..k]) && rs[k].Record?
    ensures Bindable(rs[..k + 1])
    ensures Imported(t, owner, rs[..k + 1], now) ==
      AddPrompt(Imported(t, owner, rs[..k], now), owner, Description(rs[k]), StoredForm(rs[k]), CreatedAt(rs[k], now), false)
  {
    assert rs[..k + 1][..k] == rs[..k];
  }

  /** The guards: no file, a non-empty table, an unusable file or no user leaves everything as
      it was, and the file stays where it is so that a later start can retry. */
  lemma NoopCases(t: Tables, d: Disk, now: string)
    requires d.legacy.None? || |t.prompts| > 0 || Importable(d.legacy.value).None? || t.users == []
    ensures MigrateSpec(t, d, now) == Outcome(t, d, false)
  {
  }

  /** An element whose insert throws: the call throws, with the tables and the file as they
      were, and so does every later start until the file changes. */
  lemma UnbindableRollsBack(t: Tables, d: Disk, now: string, i: nat)
    requires d.legacy.Some? && |t.prompts| == 0 && Importable(d.legacy.value).Some? && t.users != []
    requires i < |d.legacy.value.items| && d.legacy.value.items[i].Unbindable?
    ensures MigrateSpec(t, d, now) == Outcome(t, d, true)
  {
  }

  /** A successful import: one row per record, in order, owned by the user with the lowest id,
      with ids after every id issued before; the file is renamed. */
  lemma ImportResult(t: Tables, d: Disk, now: string)
    requires Consistent(t) && d.legacy.Some? && |t.prompts| == 0 && Importable(d.legacy.value).Some? && t.users != []
    requires Bindable(d.legacy.value.items)
    ensures var Outcome(t1, d1, thrown) := MigrateSpec(t, d, now);
      var rs := d.legacy.value.items;
      !thrown && d1 == Disk(None, d.legacy) &&
      t1.users == t.users && t1.apiKeys == t.apiKeys && |t1.prompts| == |rs| &&
      (forall u :: u in t.users ==> t.users[0].id <= u.id) &&
      forall i :: 0 <= i < |rs| ==>
        t1.prompts[i] == ImportRow(rs[i], t.users[0].id, t.lastPromptId + 1 + i, now) && t1.prompts[i].id > t.lastPromptId
  {
    var rs := d.legacy.value.items;
    var ps := ImportRows(rs, t.users[0].id, t.lastPromptId + 1, now);
    forall i | 0 <= i < |rs| ensures ps[i] == ImportRow(rs[i], t.users[0].id, t.lastPromptId + 1 + i, now) {
      ImportRowsAt(rs, t.users[0].id, t.lastPromptId + 1, now, i);
    }
    forall u | u in t.users ensures t.users[0].id <= u.id {
      var j :| 0 <= j < |t.users| && t.users[j] == u;
    }
  }

  /** Once a call returns, a second call does nothing; once a call throws, a second call on what
      it left throws in the same way. */
  lemma SecondCallNoop(t: Tables, d: Disk, now: string, later: string)
    ensures var o := MigrateSpec(t, d, now);
      MigrateSpec(o.tables, o.disk, later) == o
  {
    var o := MigrateSpec(t, d, now);
    if d.legacy.Some? && |t.prompts| == 0 && Importable(d.legacy.value).Some? && t.users != [] &&
       Bindable(d.legacy.value.items) {
      assert o.disk.legacy.None?;
    }
  }

  /** A start with no registered user leaves the file; once a user exists the next start
      imports it. */
  lemma RetryAfterFirstUser(t: Tables, d: Disk, now: string, username: string, email: string,
                            displayName: string, hash: string, created: string)
    requires d.legacy.Some? && |t.prompts| == 0 && Importable(d.legacy.value).Some? && t.users == []
    ensures MigrateSpec(t, d, now) == Outcome(t, d, false)
    ensures var t1 := AddUser(t, username, email, displayName, hash, created);
      Bindable(d.legacy.value.items) ==>
        MigrateSpec(t1, d, now).disk == Disk(None, d.legacy) &&
        |MigrateSpec(t1, d, now).tables.prompts| == |d.legacy.value.items|
  {
  }
}
