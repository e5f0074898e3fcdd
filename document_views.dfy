/** The document views (documents/views.py): saving signature-field
    assignments into the table and the PDF's form, signing a user's pending
    fields with stamp annotations, and the owner rules for deleting and
    listing documents. The database and the media directory are the fields
    of a Site object; the PDF is the abstract value of PdfModel. */
module DocumentViews {
  import opened Wrappers
  import opened Text
  import opened Seqs
  import opened AccountModels
  import opened DocumentModels
  import opened PdfModel

  // ---------------------------------------------------------------------------
  // The field registry: update_or_create keyed on the 5-tuple, derived names.

  /** The lookup of update_or_create: document, assigned user, x, y, page. */
  datatype FieldKey = FieldKey(document: nat, assignedUser: nat, x: int, y: int, page: int)

  function KeyOf(f: SignatureField): FieldKey
  {
    FieldKey(f.document, f.assignedUser, f.x, f.y, f.page)
  }

  const NamePrefix := "Signature_"

  /** Signature_<document id>_<user id>_<x>_<y>_<page>. */
  function FieldName(k: FieldKey): (name: string)
    ensures StartsWith(name, NamePrefix)
  {
    NamePrefix + (NatToString(k.document) + ("_" + (NatToString(k.assignedUser) + ("_" +
      (IntToString(k.x) + ("_" + (IntToString(k.y) + ("_" + IntToString(k.page)))))))))
  }

  lemma DigitsFree(n: nat)
    ensures Free(NatToString(n), '_')
  {
  }

  lemma IntDigitsFree(i: int)
    ensures Free(IntToString(i), '_')
  {
  }

  /** Distinct keys get distinct names: the name is an injective encoding of the key. */
  lemma FieldNameInjective(k1: FieldKey, k2: FieldKey)
    requires FieldName(k1) == FieldName(k2)
    ensures k1 == k2
  {
    var r1 := NatToString(k1.assignedUser) + ("_" + (IntToString(k1.x) + ("_" + (IntToString(k1.y) + ("_" + IntToString(k1.page))))));
    var r2 := NatToString(k2.assignedUser) + ("_" + (IntToString(k2.x) + ("_" + (IntToString(k2.y) + ("_" + IntToString(k2.page))))));
    SamePrefix(NamePrefix, NatToString(k1.document) + ("_" + r1), NatToString(k2.document) + ("_" + r2));
    DigitsFree(k1.document); DigitsFree(k2.document);
    SplitAtSeparator(NatToString(k1.document), r1, NatToString(k2.document), r2, '_');
    NatToStringInjective(k1.document, k2.document);
    var q1 := IntToString(k1.x) + ("_" + (IntToString(k1.y) + ("_" + IntToString(k1.page))));
    var q2 := IntToString(k2.x) + ("_" + (IntToString(k2.y) + ("_" + IntToString(k2.page))));
    DigitsFree(k1.assignedUser); DigitsFree(k2.assignedUser);
    SplitAtSeparator(NatToString(k1.assignedUser), q1, NatToString(k2.assignedUser), q2, '_');
    NatToStringInjective(k1.assignedUser, k2.assignedUser);
    var t1 := IntToString(k1.y) + ("_" + IntToString(k1.page));
    var t2 := IntToString(k2.y) + ("_" + IntToString(k2.page));
    IntDigitsFree(k1.x); IntDigitsFree(k2.x);
    SplitAtSeparator(IntToString(k1.x), t1, IntToString(k2.x), t2, '_');
    IntToStringInjective(k1.x, k2.x);
    IntDigitsFree(k1.y); IntDigitsFree(k2.y);
    SplitAtSeparator(IntToString(k1.y), IntToString(k1.page), IntToString(k2.y), IntToString(k2.page), '_');
    IntToStringInjective(k1.y, k2.y);
    IntToStringInjective(k1.page, k2.page);
  }

  /** The box every saved signature field gets: 100 wide and 50 high from (x, y). */
  const FieldWidth: int := 100
  const FieldHeight: int := 50

  function FieldBox(x: int, y: int): (b: Box)
    ensures b.x2 - b.x1 == FieldWidth && b.y2 - b.y1 == FieldHeight
    ensures b.x1 == x && b.y1 == y
  {
    Box(x, y, x + 100, y + 50)
  }

  /** The row's name is the one derived from its lookup key. */
  predicate NamedByKey(f: SignatureField)
  {
    f.fieldName == FieldName(KeyOf(f))
  }

  /** The invariants of the signature-field table that the views maintain:
      ids are unique and below the next id to hand out, no two rows share
      a lookup key, and every name is the one derived from the row's key. */
  ghost predicate Registry(fields: seq<SignatureField>, nextId: nat)
  {
    UniqueBy(fields, (f: SignatureField) => f.id) &&
    UniqueBy(fields, KeyOf) &&
    (forall i :: 0 <= i < |fields| ==> fields[i].id < nextId) &&
    (forall i {:trigger NamedByKey(fields[i])} :: 0 <= i < |fields| ==> NamedByKey(fields[i]))
  }

  /** Field names are unique across the whole table. */
  lemma RegistryNamesUnique(fields: seq<SignatureField>, nextId: nat)
    requires Registry(fields, nextId)
    ensures UniqueBy(fields, (f: SignatureField) => f.fieldName)
  {
    forall i, j | 0 <= i < j < |fields| ensures fields[i].fieldName != fields[j].fieldName {
      if fields[i].fieldName == fields[j].fieldName {
        assert NamedByKey(fields[i]) && NamedByKey(fields[j]);
        FieldNameInjective(KeyOf(fields[i]), KeyOf(fields[j]));
      }
    }
  }

  /** The table holds a row with this key. */
  ghost predicate HasKey(fields: seq<SignatureField>, k: FieldKey)
  {
    exists i :: 0 <= i < |fields| && KeyOf(fields[i]) == k
  }

  /** The position of the first row with this key. */
  function FindKey(fields: seq<SignatureField>, k: FieldKey): (r: Option<nat>)
    ensures r.Some? ==> r.value < |fields| && KeyOf(fields[r.value]) == k
    ensures r.None? <==> !HasKey(fields, k)
  {
    if fields == [] then None
    else if KeyOf(fields[0]) == k then Some(0)
    else
      var r := FindKey(fields[1..], k);
      assert forall i :: 0 <= i < |fields| - 1 ==> fields[1..][i] == fields[i + 1];
      if r.Some? then Some(r.value + 1) else None
  }

  /** The outcome of update_or_create: the new table, the row, whether it was created, the next id. */
  datatype Upserted = Upserted(fields: seq<SignatureField>, record: SignatureField, created: bool, nextId: nat)

  /** update_or_create(document, assigned_user, x, y, page, defaults={signed: False, field_name}):
      a row with the key is updated (signed reset to false, name rewritten);
      otherwise a new row is appended under the next id. */
  function UpdateOrCreate(fields: seq<SignatureField>, nextId: nat, k: FieldKey, name: string): (r: Upserted)
    ensures r.created <==> !HasKey(fields, k)
    ensures KeyOf(r.record) == k && r.record.fieldName == name && !r.record.signed
    ensures r.created ==> r.fields == fields + [r.record] && r.record.id == nextId && r.nextId == nextId + 1
    ensures !r.created ==> (r.nextId == nextId && |r.fields| == |fields| &&
      exists i :: 0 <= i < |fields| && KeyOf(fields[i]) == k && r.record.id == fields[i].id && r.fields == fields[i := r.record])
    ensures forall i :: 0 <= i < |r.fields| ==> r.fields[i] in fields || r.fields[i] == r.record
    ensures r.record in r.fields
    ensures forall x :: HasKey(fields, x) ==> HasKey(r.fields, x)
  {
    match FindKey(fields, k)
    case Some(i) =>
      var rec := fields[i].(signed := false, fieldName := name);
      var fs := fields[i := rec];
      assert fs[i] == rec;
      assert forall x :: HasKey(fields, x) ==> HasKey(fs, x) by {
        forall x | HasKey(fields, x) ensures HasKey(fs, x) {
          var j :| 0 <= j < |fields| && KeyOf(fields[j]) == x;
          assert KeyOf(fs[j]) == x;
        }
      }
      Upserted(fs, rec, false, nextId)
    case None =>
      var rec := NewSignatureField(nextId, k.document, k.assignedUser, k.page, k.x, k.y, name);
      var fs := fields + [rec];
      assert forall x :: HasKey(fields, x) ==> HasKey(fs, x) by {
        forall x | HasKey(fields, x) ensures HasKey(fs, x) {
          var j :| 0 <= j < |fields| && KeyOf(fields[j]) == x;
          assert fs[j] == fields[j];
        }
      }
      Upserted(fs, rec, true, nextId + 1)
  }

  /** An upsert with the derived name keeps the table's invariants. */
  lemma UpdateOrCreateKeepsRegistry(fields: seq<SignatureField>, nextId: nat, k: FieldKey)
    requires Registry(fields, nextId)
    ensures Registry(UpdateOrCreate(fields, nextId, k, FieldName(k)).fields, UpdateOrCreate(fields, nextId, k, FieldName(k)).nextId)
  {
    var r := UpdateOrCreate(fields, nextId, k, FieldName(k));
    if r.created {
      CreatedKeepsRegistry(fields, nextId, r.record, r.fields);
    } else {
      var n :| 0 <= n < |fields| && KeyOf(fields[n]) == k && r.record.id == fields[n].id && r.fields == fields[n := r.record];
      UpdatedKeepsRegistry(fields, nextId, n, r.record);
    }
  }

  lemma CreatedKeepsRegistry(fields: seq<SignatureField>, nextId: nat, rec: SignatureField, fs: seq<SignatureField>)
    requires Registry(fields, nextId)
    requires fs == fields + [rec] && rec.id == nextId && !HasKey(fields, KeyOf(rec))
    requires NamedByKey(rec)
    ensures Registry(fs, nextId + 1)
  {
    forall i, j | 0 <= i < j < |fs| ensures fs[i].id != fs[j].id && KeyOf(fs[i]) != KeyOf(fs[j]) {
      if j < |fields| {
        assert fs[i] == fields[i] && fs[j] == fields[j];
      } else {
        assert fs[i] == fields[i] && fs[j] == rec;
      }
    }
    forall i | 0 <= i < |fs| ensures fs[i].id < nextId + 1 && NamedByKey(fs[i]) {
      if i < |fields| { assert fs[i] == fields[i]; }
    }
  }

  lemma UpdatedKeepsRegistry(fields: seq<SignatureField>, nextId: nat, n: nat, rec: SignatureField)
    requires Registry(fields, nextId)
    requires n < |fields| && KeyOf(fields[n]) == KeyOf(rec) && rec.id == fields[n].id
    requires NamedByKey(rec)
    ensures Registry(fields[n := rec], nextId)
  {
    var fs := fields[n := rec];
    forall i, j | 0 <= i < j < |fs| ensures fs[i].id != fs[j].id && KeyOf(fs[i]) != KeyOf(fs[j]) {
      assert fs[i].id == fields[i].id && KeyOf(fs[i]) == KeyOf(fields[i]);
      assert fs[j].id == fields[j].id && KeyOf(fs[j]) == KeyOf(fields[j]);
    }
    forall i | 0 <= i < |fs| ensures fs[i].id < nextId && NamedByKey(fs[i]) {
      assert fs[i].id == fields[i].id;
    }
  }

  // ---------------------------------------------------------------------------
  // Saving assignments (SaveSignaturesView.post).

  /** One submitted entry; None stands for a missing key or a JSON null. */
  datatype Entry = Entry(assignedUserId: Option<nat>, x: Option<int>, y: Option<int>, page: Option<int>)

  /** The request body: not JSON at all, or an object whose "signatures" key may be absent. */
  datatype Body = Unparseable | Parsed(signatures: Option<seq<Entry>>)

  /** An entry carries all four values; any other entry is skipped. */
  predicate Complete(e: Entry)
  {
    e.assignedUserId.Some? && e.x.Some? && e.y.Some? && e.page.Some?
  }

  function EntryKey(docId: nat, e: Entry): FieldKey
    requires Complete(e)
  {
    FieldKey(docId, e.assignedUserId.value, e.x.value, e.y.value, e.page.value)
  }

  /** json.loads and data.get("signatures", []) followed by the emptiness test. */
  function ValidateBody(body: Body): (r: Result<seq<Entry>, string>)
    ensures r == Failure("Invalid JSON data") <==> body.Unparseable?
    ensures r == Failure("No signature fields provided") <==> body.Parsed? && body.signatures.GetOr([]) == []
    ensures r.Success? ==> r.value != [] && body == Parsed(Some(r.value))
  {
    match body
    case Unparseable => Failure("Invalid JSON data")
    case Parsed(signatures) =>
      if signatures.GetOr([]) == [] then Failure("No signature fields provided") else Success(signatures.value)
  }

  /** One element of the "fields" list of the 201 response. */
  datatype SavedEntry = SavedEntry(id: nat, user: string, x: int, y: int, page: int, fieldName: string, created: bool)

  /** The form field that append_signature_field adds for a saved entry:
      the derived name, the zero-based page, the fixed box. */
  function SpecOf(se: SavedEntry): FormField
  {
    SigField(se.fieldName, se.page - 1, FieldBox(se.x, se.y))
  }

  function Specs(saved: seq<SavedEntry>): (r: seq<FormField>)
    ensures |r| == |saved|
    ensures forall j :: 0 <= j < |saved| ==> r[j] == SpecOf(saved[j])
  {
    seq(|saved|, j requires 0 <= j < |saved| => SpecOf(saved[j]))
  }

  /** The response entry describes the submitted entry for this document. */
  predicate Describes(se: SavedEntry, docId: nat, e: Entry)
  {
    Complete(e) &&
    se.x == e.x.value && se.y == e.y.value && se.page == e.page.value &&
    se.fieldName == FieldName(EntryKey(docId, e))
  }

  /** How far the loop got: still running, stopped by get_object_or_404 on an
      unknown assignee, or stopped by append_signature_field raising because
      the PDF has no such page. */
  datatype Halt = Running | UnknownUser | PageNotFound

  /** What the loop has built so far: the table, the next id, the PDF being
      written, the response list, and whether and why it stopped. */
  datatype SaveState = SaveState(fields: seq<SignatureField>, nextId: nat, pdf: Pdf, saved: seq<SavedEntry>, halt: Halt)

  /** One iteration of the loop over the submitted entries. */
  function SaveStep(accounts: map<nat, Account>, docId: nat, s: SaveState, e: Entry): (r: SaveState)
    requires HasFieldsArray(s.pdf)
    ensures HasFieldsArray(r.pdf)
  {
    if !s.halt.Running? || !Complete(e) then s
    else if e.assignedUserId.value !in accounts then s.(halt := UnknownUser)
    else
      var k := EntryKey(docId, e);
      var name := FieldName(k);
      var u := UpdateOrCreate(s.fields, s.nextId, k, name);
      if !HasPage(s.pdf, k.page - 1) then SaveState(u.fields, u.nextId, s.pdf, s.saved, PageNotFound)
      else
        var se := SavedEntry(u.record.id, accounts[k.assignedUser].username, u.record.x, u.record.y, u.record.page, name, u.created);
        SaveState(u.fields, u.nextId, AppendSignatureField(s.pdf, name, k.page - 1, FieldBox(k.x, k.y)), s.saved + [se], Running)
  }

  /** The loop run over a list of entries, from the left. */
  function SaveAll(accounts: map<nat, Account>, docId: nat, s: SaveState, entries: seq<Entry>): (r: SaveState)
    requires HasFieldsArray(s.pdf)
    ensures HasFieldsArray(r.pdf)
  {
    if entries == [] then s
    else SaveStep(accounts, docId, SaveAll(accounts, docId, s, entries[..|entries| - 1]), entries[|entries| - 1])
  }

  /** The loop over one more entry is one more step. */
  lemma SaveAllSnoc(accounts: map<nat, Account>, docId: nat, s: SaveState, entries: seq<Entry>, i: nat)
    requires HasFieldsArray(s.pdf) && i < |entries|
    ensures SaveAll(accounts, docId, s, entries[..i + 1]) == SaveStep(accounts, docId, SaveAll(accounts, docId, s, entries[..i]), entries[i])
  {
    assert entries[..i + 1][..i] == entries[..i];
  }

  /** The step for an accepted entry on a page the PDF has: the upsert, the
      form field, the response entry. */
  lemma SaveStepAccepted(accounts: map<nat, Account>, docId: nat, m: SaveState, e: Entry)
    requires HasFieldsArray(m.pdf) && m.halt.Running? && Complete(e) && e.assignedUserId.value in accounts
    requires HasPage(m.pdf, e.page.value - 1)
    ensures var k := EntryKey(docId, e);
      var u := UpdateOrCreate(m.fields, m.nextId, k, FieldName(k));
      SaveStep(accounts, docId, m, e) ==
        SaveState(u.fields, u.nextId, AppendSignatureField(m.pdf, FieldName(k), k.page - 1, FieldBox(k.x, k.y)),
                  m.saved + [SavedEntry(u.record.id, accounts[k.assignedUser].username, u.record.x, u.record.y, u.record.page, FieldName(k), u.created)],
                  Running)
  {
  }

  /** The step for an accepted entry on a page the PDF lacks: the upsert has
      already been written, then append_signature_field raises, so the PDF and
      the response list stay as they were and the loop stops. */
  lemma SaveStepPageMissing(accounts: map<nat, Account>, docId: nat, m: SaveState, e: Entry)
    requires HasFieldsArray(m.pdf) && m.halt.Running? && Complete(e) && e.assignedUserId.value in accounts
    requires !HasPage(m.pdf, e.page.value - 1)
    ensures var k := EntryKey(docId, e);
      var u := UpdateOrCreate(m.fields, m.nextId, k, FieldName(k));
      SaveStep(accounts, docId, m, e) == SaveState(u.fields, u.nextId, m.pdf, m.saved, PageNotFound)
  {
  }

  /** A run stopped at entry i ends as it stopped. */
  lemma SaveAllStoppedAt(accounts: map<nat, Account>, docId: nat, s: SaveState, entries: seq<Entry>, i: nat)
    requires HasFieldsArray(s.pdf) && i < |entries| && !SaveAll(accounts, docId, s, entries[..i + 1]).halt.Running?
    ensures SaveAll(accounts, docId, s, entries) == SaveAll(accounts, docId, s, entries[..i + 1])
  {
    SaveAllStopped(accounts, docId, SaveAll(accounts, docId, s, entries[..i + 1]), entries[i + 1..]);
    SaveAllAppend(accounts, docId, s, entries[..i + 1], entries[i + 1..]);
    assert entries[..i + 1] + entries[i + 1..] == entries;
  }

  /** Once the loop has stopped, later entries change nothing. */
  lemma {:induction false} SaveAllStopped(accounts: map<nat, Account>, docId: nat, s: SaveState, entries: seq<Entry>)
    requires HasFieldsArray(s.pdf) && !s.halt.Running?
    ensures SaveAll(accounts, docId, s, entries) == s
  {
    if entries != [] {
      SaveAllStopped(accounts, docId, s, entries[..|entries| - 1]);
    }
  }

  /** Running the loop over a + b is running it over a, then over b. */
  lemma {:induction false} SaveAllAppend(accounts: map<nat, Account>, docId: nat, s: SaveState, a: seq<Entry>, b: seq<Entry>)
    requires HasFieldsArray(s.pdf)
    ensures SaveAll(accounts, docId, s, a + b) == SaveAll(accounts, docId, SaveAll(accounts, docId, s, a), b)
  {
    if b == [] {
      assert a + b == a;
    } else {
      assert (a + b)[..|a + b| - 1] == a + b[..|b| - 1];
      SaveAllAppend(accounts, docId, s, a, b[..|b| - 1]);
    }
  }

  /** The loop keeps the table's invariants, and every row it writes belongs to
      the document and to a known account. */
  lemma {:induction false} SaveAllKeepsRegistry(accounts: map<nat, Account>, docId: nat, s: SaveState, entries: seq<Entry>)
    requires HasFieldsArray(s.pdf) && Registry(s.fields, s.nextId)
    ensures Registry(SaveAll(accounts, docId, s, entries).fields, SaveAll(accounts, docId, s, entries).nextId)
    ensures forall i :: 0 <= i < |SaveAll(accounts, docId, s, entries).fields| ==>
      var f := SaveAll(accounts, docId, s, entries).fields[i];
      f in s.fields || (f.document == docId && f.assignedUser in accounts)
  {
    if entries != [] {
      var init := entries[..|entries| - 1];
      SaveAllKeepsRegistry(accounts, docId, s, init);
      var m := SaveAll(accounts, docId, s, init);
      var e := entries[|entries| - 1];
      if m.halt.Running? && Complete(e) && e.assignedUserId.value in accounts {
        UpdateOrCreateKeepsRegistry(m.fields, m.nextId, EntryKey(docId, e));
      }
    }
  }

  /** One loop step either leaves the response and the PDF alone, or appends
      one response entry together with the form field it describes. */
  lemma SaveStepForm(accounts: map<nat, Account>, docId: nat, m: SaveState, e: Entry)
    requires HasFieldsArray(m.pdf)
    ensures var r := SaveStep(accounts, docId, m, e);
      (r.saved == m.saved && r.pdf == m.pdf) ||
      (|r.saved| == |m.saved| + 1 && r.saved[..|m.saved|] == m.saved &&
       FormFields(r.pdf) == FormFields(m.pdf) + [SpecOf(r.saved[|m.saved|])])
  {
    var r := SaveStep(accounts, docId, m, e);
    if m.halt.Running? && Complete(e) && e.assignedUserId.value in accounts && HasPage(m.pdf, e.page.value - 1) {
      assert r.saved[..|m.saved|] == m.saved;
    }
  }

  lemma SpecsSnoc(a: seq<SavedEntry>, se: SavedEntry)
    ensures Specs(a + [se]) == Specs(a) + [SpecOf(se)]
  {
    assert forall j :: 0 <= j < |a| ==> (a + [se])[j] == a[j];
  }

  /** The bookkeeping of SaveAllFormFields for one step, on plain sequences. */
  lemma FormFieldsExtend(n: nat, base: seq<FormField>, ms: seq<SavedEntry>, mf: seq<FormField>, rs: seq<SavedEntry>, rf: seq<FormField>)
    requires n <= |ms| && mf == base + Specs(ms[n..])
    requires (rs == ms && rf == mf) || (|rs| == |ms| + 1 && rs[..|ms|] == ms && rf == mf + [SpecOf(rs[|ms|])])
    ensures n <= |rs| && rs[..n] == ms[..n] && rf == base + Specs(rs[n..])
  {
    if rs != ms || rf != mf {
      var se := rs[|ms|];
      assert rs == ms + [se];
      assert rs[n..] == ms[n..] + [se];
      SpecsSnoc(ms[n..], se);
    }
  }

  /** Each response entry comes with exactly one new signature field in the
      form, in the same order: the fields written are the old ones followed by
      one SigField per response entry. */
  lemma {:induction false} SaveAllFormFields(accounts: map<nat, Account>, docId: nat, s: SaveState, entries: seq<Entry>)
    requires HasFieldsArray(s.pdf)
    ensures |s.saved| <= |SaveAll(accounts, docId, s, entries).saved|
    ensures SaveAll(accounts, docId, s, entries).saved[..|s.saved|] == s.saved
    ensures FormFields(SaveAll(accounts, docId, s, entries).pdf) == FormFields(s.pdf) + Specs(SaveAll(accounts, docId, s, entries).saved[|s.saved|..])
  {
    if entries == [] {
      assert s.saved[|s.saved|..] == [];
      assert FormFields(s.pdf) + [] == FormFields(s.pdf);
    } else {
      var init := entries[..|entries| - 1];
      SaveAllFormFields(accounts, docId, s, init);
      var m := SaveAll(accounts, docId, s, init);
      var e := entries[|entries| - 1];
      var r := SaveStep(accounts, docId, m, e);
      assert SaveAll(accounts, docId, s, entries) == r;
      SaveStepForm(accounts, docId, m, e);
      FormFieldsExtend(|s.saved|, FormFields(s.pdf), m.saved, FormFields(m.pdf), r.saved, FormFields(r.pdf));
    }
  }

  /** Unless something stopped it, the loop answers one entry per complete
      submitted entry, in submission order, skipping the incomplete ones. */
  lemma {:induction false} SaveAllResponds(accounts: map<nat, Account>, docId: nat, s: SaveState, entries: seq<Entry>)
    requires HasFieldsArray(s.pdf) && s.halt.Running?
    ensures var r := SaveAll(accounts, docId, s, entries);
      var accepted := Filter(entries, Complete);
      r.halt.Running? ==>
        |r.saved| == |s.saved| + |accepted| &&
        r.saved[..|s.saved|] == s.saved &&
        forall j :: 0 <= j < |accepted| ==> Describes(r.saved[|s.saved| + j], docId, accepted[j])
  {
    if entries != [] {
      var init := entries[..|entries| - 1];
      var e := entries[|entries| - 1];
      var r := SaveAll(accounts, docId, s, entries);
      var m := SaveAll(accounts, docId, s, init);
      if r.halt.Running? {
        assert m.halt.Running?;
        SaveAllResponds(accounts, docId, s, init);
        var acc0 := Filter(init, Complete);
        assert Filter(entries, Complete) == acc0 + (if Complete(e) then [e] else []);
        if Complete(e) {
          assert r.saved == m.saved + [r.saved[|r.saved| - 1]];
          assert Describes(r.saved[|r.saved| - 1], docId, e);
        }
      }
    }
  }

  /** After a run that was not stopped, the table holds a row for the key of
      every complete entry; rows present before are still present. */
  lemma {:induction false} SaveAllStoresKeys(accounts: map<nat, Account>, docId: nat, s: SaveState, entries: seq<Entry>)
    requires HasFieldsArray(s.pdf)
    ensures var r := SaveAll(accounts, docId, s, entries);
      (forall k :: HasKey(s.fields, k) ==> HasKey(r.fields, k)) &&
      (r.halt.Running? ==> forall i :: 0 <= i < |entries| && Complete(entries[i]) ==> HasKey(r.fields, EntryKey(docId, entries[i])))
  {
    if entries != [] {
      var init := entries[..|entries| - 1];
      SaveAllStoresKeys(accounts, docId, s, init);
      var m := SaveAll(accounts, docId, s, init);
      var e := entries[|entries| - 1];
      var r := SaveAll(accounts, docId, s, entries);
      if r.halt.Running? {
        assert m.halt.Running?;
        forall i | 0 <= i < |entries| && Complete(entries[i]) ensures HasKey(r.fields, EntryKey(docId, entries[i])) {
          if i < |init| {
            assert init[i] == entries[i];
          } else {
            var u := UpdateOrCreate(m.fields, m.nextId, EntryKey(docId, e), FieldName(EntryKey(docId, e)));
            var p :| 0 <= p < |u.fields| && u.fields[p] == u.record;
          }
        }
      }
    }
  }

  /** The run never changes the pages, and a run that was not stopped found
      the page of every complete entry: a 201 means every submitted page exists. */
  lemma {:induction false} SaveAllPagesExist(accounts: map<nat, Account>, docId: nat, s: SaveState, entries: seq<Entry>)
    requires HasFieldsArray(s.pdf)
    ensures var r := SaveAll(accounts, docId, s, entries);
      r.pdf.pages == s.pdf.pages &&
      (r.halt.Running? ==> forall i :: 0 <= i < |entries| && Complete(entries[i]) ==> HasPage(s.pdf, entries[i].page.value - 1))
  {
    if entries != [] {
      var init := entries[..|entries| - 1];
      SaveAllPagesExist(accounts, docId, s, init);
      var m := SaveAll(accounts, docId, s, init);
      var e := entries[|entries| - 1];
      var r := SaveAll(accounts, docId, s, entries);
      if r.halt.Running? {
        assert m.halt.Running?;
        forall i | 0 <= i < |entries| && Complete(entries[i]) ensures HasPage(s.pdf, entries[i].page.value - 1) {
          if i < |init| {
            assert init[i] == entries[i];
          }
        }
      }
    }
  }

  /** When every complete entry's key is already stored, the run adds no row,
      hands out no id, and answers created = false throughout. */
  lemma {:induction false} SaveAllNoNewRows(accounts: map<nat, Account>, docId: nat, s: SaveState, entries: seq<Entry>)
    requires HasFieldsArray(s.pdf)
    requires forall i :: 0 <= i < |entries| && Complete(entries[i]) ==> HasKey(s.fields, EntryKey(docId, entries[i]))
    ensures var r := SaveAll(accounts, docId, s, entries);
      |r.fields| == |s.fields| && r.nextId == s.nextId && |s.saved| <= |r.saved| &&
      (forall k :: HasKey(s.fields, k) ==> HasKey(r.fields, k)) &&
      forall j :: |s.saved| <= j < |r.saved| ==> !r.saved[j].created
  {
    if entries != [] {
      var init := entries[..|entries| - 1];
      assert forall i :: 0 <= i < |init| ==> init[i] == entries[i];
      SaveAllNoNewRows(accounts, docId, s, init);
    }
  }

  /** Submitting the same entries again, right after a run that was not
      stopped, adds no second row for any key: the re-submission only updates. */
  lemma ResubmitAddsNoRows(accounts: map<nat, Account>, docId: nat, s: SaveState, entries: seq<Entry>)
    requires HasFieldsArray(s.pdf)
    requires SaveAll(accounts, docId, s, entries).halt.Running?
    ensures var r1 := SaveAll(accounts, docId, s, entries);
      var r2 := SaveAll(accounts, docId, r1.(saved := []), entries);
      |r2.fields| == |r1.fields| && r2.nextId == r1.nextId &&
      forall j :: 0 <= j < |r2.saved| ==> !r2.saved[j].created
  {
    var r1 := SaveAll(accounts, docId, s, entries);
    SaveAllStoresKeys(accounts, docId, s, entries);
    SaveAllNoNewRows(accounts, docId, r1.(saved := []), entries);
  }

  /** Some complete entry of the submission carries the key. */
  ghost predicate KeySubmitted(docId: nat, entries: seq<Entry>, k: FieldKey)
  {
    exists j :: 0 <= j < |entries| && Complete(entries[j]) && EntryKey(docId, entries[j]) == k
  }

  /** The upsert touches at most the row with its key, and whatever it adds
      or rewrites carries that key and is unsigned. */
  lemma UpsertFrame(fields: seq<SignatureField>, nextId: nat, k: FieldKey, name: string)
    ensures var fs := UpdateOrCreate(fields, nextId, k, name).fields;
      |fields| <= |fs| &&
      (forall i :: 0 <= i < |fields| && KeyOf(fields[i]) != k ==> fs[i] == fields[i]) &&
      (forall i :: 0 <= i < |fs| && (i >= |fields| || fs[i] != fields[i]) ==> !fs[i].signed && KeyOf(fs[i]) == k)
  {
    var u := UpdateOrCreate(fields, nextId, k, name);
    if !u.created {
      var n :| 0 <= n < |fields| && KeyOf(fields[n]) == k && u.record.id == fields[n].id && u.fields == fields[n := u.record];
    }
  }

  /** One step touches at most the row with the entry's key, and whatever it
      adds or rewrites carries that key and is unsigned. */
  lemma SaveStepFrame(accounts: map<nat, Account>, docId: nat, m: SaveState, e: Entry)
    requires HasFieldsArray(m.pdf)
    ensures var r := SaveStep(accounts, docId, m, e);
      |m.fields| <= |r.fields| &&
      (forall i :: 0 <= i < |m.fields| && !(Complete(e) && KeyOf(m.fields[i]) == EntryKey(docId, e)) ==>
        r.fields[i] == m.fields[i]) &&
      (forall i :: 0 <= i < |r.fields| && (i >= |m.fields| || r.fields[i] != m.fields[i]) ==>
        !r.fields[i].signed && Complete(e) && KeyOf(r.fields[i]) == EntryKey(docId, e))
  {
    if m.halt.Running? && Complete(e) && e.assignedUserId.value in accounts {
      var k := EntryKey(docId, e);
      UpsertFrame(m.fields, m.nextId, k, FieldName(k));
    }
  }

  /** The whole run changes nothing but the rows of the submitted keys: a row
      whose key no complete entry carries keeps its place and its value
      (id, name and signed flag), and every row the run adds or rewrites has
      the key of some complete entry and is unsigned. */
  lemma {:induction false} SaveAllFrame(accounts: map<nat, Account>, docId: nat, s: SaveState, entries: seq<Entry>)
    requires HasFieldsArray(s.pdf)
    ensures var r := SaveAll(accounts, docId, s, entries);
      |s.fields| <= |r.fields| &&
      (forall i :: 0 <= i < |s.fields| && !KeySubmitted(docId, entries, KeyOf(s.fields[i])) ==> r.fields[i] == s.fields[i]) &&
      (forall i :: 0 <= i < |r.fields| && (i >= |s.fields| || r.fields[i] != s.fields[i]) ==>
        !r.fields[i].signed && KeySubmitted(docId, entries, KeyOf(r.fields[i])))
  {
    if entries != [] {
      var init := entries[..|entries| - 1];
      var e := entries[|entries| - 1];
      var m := SaveAll(accounts, docId, s, init);
      var r := SaveAll(accounts, docId, s, entries);
      assert r == SaveStep(accounts, docId, m, e);
      SaveAllFrame(accounts, docId, s, init);
      SaveStepFrame(accounts, docId, m, e);
      forall k | KeySubmitted(docId, init, k) ensures KeySubmitted(docId, entries, k) {
        var j :| 0 <= j < |init| && Complete(init[j]) && EntryKey(docId, init[j]) == k;
        assert entries[j] == init[j];
      }
      if Complete(e) {
        assert KeySubmitted(docId, entries, EntryKey(docId, e)) by {
          assert entries[|entries| - 1] == e;
        }
      }
      forall i | 0 <= i < |s.fields| && !KeySubmitted(docId, entries, KeyOf(s.fields[i])) ensures r.fields[i] == s.fields[i] {
        assert m.fields[i] == s.fields[i];
      }
    }
  }

  // ---------------------------------------------------------------------------
  // Signing (SignDocumentView.get and .post).

  /** The queryset filter(document=d, assigned_user=u, signed=False). */
  function PendingFor(docId: nat, user: nat): SignatureField -> bool
  {
    (f: SignatureField) => f.document == docId && f.assignedUser == user && !f.signed
  }

  /** The caller's unsigned fields on the document, in table order. */
  function Pending(fields: seq<SignatureField>, docId: nat, user: nat): (r: seq<SignatureField>)
    ensures forall i :: 0 <= i < |r| ==> r[i] in fields && r[i].document == docId && r[i].assignedUser == user && !r[i].signed
    ensures forall i :: 0 <= i < |fields| && fields[i].document == docId && fields[i].assignedUser == user && !fields[i].signed ==> fields[i] in r
  {
    Filter(fields, PendingFor(docId, user))
  }

  /** A user with no unsigned field on the document has nothing pending, so
      is answered "No pending signatures found" whether assigned or not. */
  lemma NotAssignedNothingPending(fields: seq<SignatureField>, docId: nat, user: nat)
    requires forall i :: 0 <= i < |fields| ==> fields[i].document != docId || fields[i].assignedUser != user || fields[i].signed
    ensures Pending(fields, docId, user) == []
  {
    FilterNone(fields, PendingFor(docId, user));
  }

  /** The pixel size of the user's signature image (img.size). */
  datatype ImageSize = ImageSize(width: nat, height: nat)

  /** The /Stamp annotation for one field: /NM is the field name and /Rect is
      [x, y, x + width/3, y + height/3], every number through NumberObject. */
  function StampFor(f: SignatureField, img: ImageSize): (a: Annotation)
    ensures a.Stamp? && a.name == f.fieldName
    ensures a.rect.x1 == f.x && a.rect.y1 == f.y
    ensures f.x >= 0 ==> (a.rect.x2 - f.x) as real <= img.width as real / 3.0 < (a.rect.x2 - f.x + 1) as real
    ensures f.y >= 0 ==> (a.rect.y2 - f.y) as real <= img.height as real / 3.0 < (a.rect.y2 - f.y + 1) as real
  {
    NumberObjectOfInt(f.x);
    NumberObjectOfInt(f.y);
    Stamp(f.fieldName, Box(NumberObject(f.x as real), NumberObject(f.y as real),
                           NumberObject(f.x as real + img.width as real / 3.0),
                           NumberObject(f.y as real + img.height as real / 3.0)))
  }

  function Stamps(fs: seq<SignatureField>, img: ImageSize): (r: seq<Annotation>)
    ensures |r| == |fs|
    ensures forall j :: 0 <= j < |fs| ==> r[j] == StampFor(fs[j], img)
  {
    seq(|fs|, j requires 0 <= j < |fs| => StampFor(fs[j], img))
  }

  function OnPage(pageNumber: int): SignatureField -> bool
  {
    (f: SignatureField) => f.page == pageNumber
  }

  /** page_fields: the pending fields whose one-based page is pageNumber. */
  function FieldsOnPage(pending: seq<SignatureField>, pageNumber: int): seq<SignatureField>
  {
    Filter(pending, OnPage(pageNumber))
  }

  /** The copy of the document that carries the stamps: every page in order,
      page i with the stamps of the fields whose page is i + 1 appended. */
  function Overlay(pdf: Pdf, pending: seq<SignatureField>, img: ImageSize): (r: Pdf)
    ensures r.form == pdf.form && |r.pages| == |pdf.pages|
    ensures forall i :: 0 <= i < |pdf.pages| ==> r.pages[i] == AddAnnotations(pdf.pages[i], Stamps(FieldsOnPage(pending, i + 1), img))
  {
    Pdf(pdf.form, seq(|pdf.pages|, i requires 0 <= i < |pdf.pages| =>
      AddAnnotations(pdf.pages[i], Stamps(FieldsOnPage(pending, i + 1), img))))
  }

  /** With unique names among the pending fields, the stamps appended to
      page i name the pending field f exactly when f's page is i + 1, and no
      name is stamped twice on a page: each field on an existing page gets
      one stamp, on its own page, and a field on a page the document does
      not have gets none. */
  lemma {:induction false} OverlayStampsOnce(pending: seq<SignatureField>, img: ImageSize, pageNumber: int, f: SignatureField)
    requires UniqueBy(pending, (g: SignatureField) => g.fieldName)
    requires f in pending
    ensures var run := Stamps(FieldsOnPage(pending, pageNumber), img);
      ((exists j :: 0 <= j < |run| && run[j].name == f.fieldName) <==> f.page == pageNumber) &&
      forall j1, j2 :: 0 <= j1 < j2 < |run| ==> run[j1].name != run[j2].name
  {
    var fs := FieldsOnPage(pending, pageNumber);
    var run := Stamps(fs, img);
    FilterUniqueBy(pending, OnPage(pageNumber), (g: SignatureField) => g.fieldName);
    if f.page == pageNumber {
      var k :| 0 <= k < |pending| && pending[k] == f;
      assert f in fs;
      var j :| 0 <= j < |fs| && fs[j] == f;
      assert run[j].name == f.fieldName;
    }
    if exists j :: 0 <= j < |run| && run[j].name == f.fieldName {
      var j :| 0 <= j < |run| && run[j].name == f.fieldName;
      var g := fs[j];
      assert g in pending && g.page == pageNumber;
      var a :| 0 <= a < |pending| && pending[a] == g;
      var b :| 0 <= b < |pending| && pending[b] == f;
      assert pending[a].fieldName == pending[b].fieldName;
      assert a == b;
    }
  }

  /** Every field name in the table is unique, hence so among the pending ones. */
  lemma PendingNamesUnique(fields: seq<SignatureField>, nextId: nat, docId: nat, user: nat)
    requires Registry(fields, nextId)
    ensures UniqueBy(Pending(fields, docId, user), (g: SignatureField) => g.fieldName)
  {
    RegistryNamesUnique(fields, nextId);
    FilterUniqueBy(fields, PendingFor(docId, user), (g: SignatureField) => g.fieldName);
  }

  /** field_names: the names of the pending fields, in order. */
  function FieldNames(fs: seq<SignatureField>): (r: seq<string>)
    ensures |r| == |fs| && forall j :: 0 <= j < |fs| ==> r[j] == fs[j].fieldName
  {
    seq(|fs|, j requires 0 <= j < |fs| => fs[j].fieldName)
  }

  /** The first name, in order, that is not among the available ones. */
  function FirstMissing(names: seq<string>, available: seq<string>): (r: Option<string>)
    ensures r.Some? ==> r.value in names && r.value !in available
  {
    if names == [] then None
    else if names[0] !in available then Some(names[0])
    else FirstMissing(names[1..], available)
  }

  /** FirstMissing finds nothing exactly when every name is available, and
      otherwise the name it finds is preceded only by available ones. */
  lemma {:induction false} FirstMissingSpec(names: seq<string>, available: seq<string>)
    ensures FirstMissing(names, available).None? <==> forall j :: 0 <= j < |names| ==> names[j] in available
    ensures FirstMissing(names, available).Some? ==>
      exists j :: 0 <= j < |names| && names[j] == FirstMissing(names, available).value &&
        (forall l :: 0 <= l < j ==> names[l] in available)
  {
    if names != [] && names[0] in available {
      var tail := names[1..];
      FirstMissingSpec(tail, available);
      assert forall j :: 1 <= j < |names| ==> names[j] == tail[j - 1];
      var r := FirstMissing(names, available);
      if r.Some? {
        var j :| 0 <= j < |tail| && tail[j] == r.value && forall l :: 0 <= l < j ==> tail[l] in available;
        assert names[j + 1] == r.value;
        forall l | 0 <= l < j + 1 ensures names[l] in available {
          if l > 0 { assert names[l] == tail[l - 1]; }
        }
      }
    } else if names != [] {
      assert names[0] == FirstMissing(names, available).value;
    }
  }

  /** The page copy as the sign view writes it if PdfWriter().add_page carries
      the pages over without the catalog's /AcroForm: the stamped pages under
      no form at all. */
  function OverlayDroppingForm(pdf: Pdf, pending: seq<SignatureField>, img: ImageSize): Pdf
  {
    Pdf(NoAcroForm, Overlay(pdf, pending, img).pages)
  }

  /** Over such a copy the name check finds an empty /Fields array, so it
      reports the first pending field as missing whatever the document's form
      held: every request with pending fields is answered 400. */
  lemma OverlayDroppingFormFails(pdf: Pdf, pending: seq<SignatureField>, img: ImageSize)
    requires pending != []
    ensures FormFields(EnsureFieldsArray(OverlayDroppingForm(pdf, pending, img))) == []
    ensures FirstMissing(FieldNames(pending), SigFieldNames(FormFields(EnsureFieldsArray(OverlayDroppingForm(pdf, pending, img))))) ==
      Some(pending[0].fieldName)
  {
    assert SigFieldNames([]) == [];
    assert FieldNames(pending)[0] == pending[0].fieldName;
  }

  /** Over the copy that keeps the form, the name check passes exactly when
      every pending field's name is a signature field of the document. */
  lemma OverlayKeepsFormPasses(pdf: Pdf, pending: seq<SignatureField>, img: ImageSize)
    ensures var available := SigFieldNames(FormFields(EnsureFieldsArray(Overlay(pdf, pending, img))));
      FirstMissing(FieldNames(pending), available).None? <==>
        forall j :: 0 <= j < |pending| ==> pending[j].fieldName in SigFieldNames(FormFields(pdf))
  {
    var available := SigFieldNames(FormFields(EnsureFieldsArray(Overlay(pdf, pending, img))));
    assert available == SigFieldNames(FormFields(pdf));
    FirstMissingSpec(FieldNames(pending), available);
  }

  /** signature_fields.update(signed=True): the caller's pending fields on
      the document are flagged, every other row is left as it was. */
  function MarkSigned(fields: seq<SignatureField>, docId: nat, user: nat): (r: seq<SignatureField>)
    ensures |r| == |fields|
  {
    seq(|fields|, i requires 0 <= i < |fields| =>
      if PendingFor(docId, user)(fields[i]) then fields[i].(signed := true) else fields[i])
  }

  /** Exactly the pending rows change, only in their flag; afterwards nothing
      is pending for the caller on that document. */
  lemma MarkSignedExactly(fields: seq<SignatureField>, docId: nat, user: nat)
    ensures var r := MarkSigned(fields, docId, user);
      (forall i :: 0 <= i < |fields| ==> (r[i] != fields[i] <==> fields[i] in Pending(fields, docId, user))) &&
      (forall i :: 0 <= i < |fields| ==> r[i] == fields[i].(signed := r[i].signed)) &&
      Pending(r, docId, user) == []
  {
    var r := MarkSigned(fields, docId, user);
    FilterNone(r, PendingFor(docId, user));
    var p := Pending(fields, docId, user);
    forall i | 0 <= i < |fields| ensures r[i] != fields[i] <==> fields[i] in p {
      if fields[i] in p {
        var j :| 0 <= j < |p| && p[j] == fields[i];
      }
    }
  }

  /** The flag update keeps the table's invariants. */
  lemma MarkSignedKeepsRegistry(fields: seq<SignatureField>, nextId: nat, docId: nat, user: nat)
    requires Registry(fields, nextId)
    ensures Registry(MarkSigned(fields, docId, user), nextId)
  {
    var r := MarkSigned(fields, docId, user);
    assert forall i :: 0 <= i < |r| ==> r[i].id == fields[i].id && KeyOf(r[i]) == KeyOf(fields[i]) && r[i].fieldName == fields[i].fieldName;
    forall i | 0 <= i < |r| ensures NamedByKey(r[i]) {
      assert NamedByKey(fields[i]);
    }
  }

  /** The temporary and the signed copies never overwrite the original. */
  function TempName(file: string): (r: string)
    ensures r != file
  {
    "temp_" + file
  }

  function SignedName(file: string): (r: string)
    ensures r != file && r != TempName(file)
  {
    assert ("signed_documents/" + file)[0] != TempName(file)[0];
    "signed_documents/" + file
  }

  // ---------------------------------------------------------------------------
  // Lookups and responses.

  /** get_object_or_404(Document, pk=id), without the 404. */
  function FindDocument(docs: seq<Document>, id: nat): (r: Option<Document>)
    ensures r.Some? ==> r.value in docs && r.value.id == id
    ensures r.None? <==> forall i :: 0 <= i < |docs| ==> docs[i].id != id
  {
    if docs == [] then None
    else if docs[|docs| - 1].id == id then Some(docs[|docs| - 1])
    else
      var r := FindDocument(docs[..|docs| - 1], id);
      assert forall i :: 0 <= i < |docs| - 1 ==> docs[..|docs| - 1][i] == docs[i];
      r
  }

  predicate HasDocument(docs: seq<Document>, id: nat)
  {
    exists i :: 0 <= i < |docs| && docs[i].id == id
  }

  /** A JSON response body: an error message, the saved fields, or the signed file's path. */
  datatype JsonBody = ErrorBody(error: string) | SavedBody(fields: seq<SavedEntry>) | SignedBody(signedPdf: string)

  /** What a view answers: JSON with a status, a redirect, 404, 403, or an
      exception that escapes the view (500). */
  datatype Response = Json(status: int, body: JsonBody) | Redirect(to: string) | NotFound | Forbidden | ServerError

  /** The image-overlay step as the view runs it: every page in order, and on
      each page the stamp of every field of that page appended in turn. */
  method BuildOverlay(pdf: Pdf, pending: seq<SignatureField>, img: ImageSize) returns (out: Pdf)
    ensures out == Overlay(pdf, pending, img)
  {
    var pages: seq<Page> := [];
    var pageNumber := 0;
    while pageNumber < |pdf.pages|
      invariant 0 <= pageNumber <= |pdf.pages|
      invariant pages == Overlay(pdf, pending, img).pages[..pageNumber]
    {
      var page := pdf.pages[pageNumber];
      var pageFields := FieldsOnPage(pending, pageNumber + 1);
      var j := 0;
      while j < |pageFields|
        invariant 0 <= j <= |pageFields|
        invariant page == AddAnnotations(pdf.pages[pageNumber], Stamps(pageFields[..j], img))
      {
        var annotation := StampFor(pageFields[j], img);
        AddOneMore(pdf.pages[pageNumber], Stamps(pageFields[..j], img), annotation);
        assert Stamps(pageFields[..j + 1], img) == Stamps(pageFields[..j], img) + [annotation];
        page := AppendAnnotation(page, annotation);
        j := j + 1;
      }
      assert pageFields[..j] == pageFields;
      pages := pages + [page];
      pageNumber := pageNumber + 1;
    }
    assert pages == Overlay(pdf, pending, img).pages;
    out := Pdf(pdf.form, pages);
  }

  /** The "verify fields exist" loop: the first assigned name the document's
      signature fields lack, if any. */
  method CheckFieldNames(names: seq<string>, available: seq<string>) returns (missing: Option<string>)
    ensures missing == FirstMissing(names, available)
  {
    var i := 0;
    while i < |names|
      invariant 0 <= i <= |names|
      invariant FirstMissing(names, available) == FirstMissing(names[i..], available)
    {
      assert names[i..][1..] == names[i + 1..];
      if names[i] !in available {
        return Some(names[i]);
      }
      i := i + 1;
    }
    return None;
  }

  /** An entry of the to-sign list: the document and its num_signatures
      annotation, the count of the caller's unsigned fields on it. */
  datatype ToSignEntry = ToSignEntry(document: Document, pendingCount: nat)

  function HasPendingFor(fields: seq<SignatureField>, user: nat): Document -> bool
  {
    (d: Document) => Pending(fields, d.id, user) != []
  }

  /** The documents with at least one unsigned field assigned to the user,
      each once, with its count of such fields. */
  function ToSign(docs: seq<Document>, fields: seq<SignatureField>, user: nat): (r: seq<ToSignEntry>)
    ensures forall j :: 0 <= j < |r| ==> r[j].document in docs && r[j].pendingCount >= 1
    ensures forall j :: 0 <= j < |r| ==> r[j].pendingCount == |Pending(fields, r[j].document.id, user)|
    ensures forall i :: 0 <= i < |docs| && Pending(fields, docs[i].id, user) != [] ==>
      exists j :: 0 <= j < |r| && r[j].document == docs[i]
  {
    var selected := Filter(docs, HasPendingFor(fields, user));
    var r := seq(|selected|, j requires 0 <= j < |selected| =>
      ToSignEntry(selected[j], |Pending(fields, selected[j].id, user)|));
    assert forall i :: 0 <= i < |docs| && Pending(fields, docs[i].id, user) != [] ==>
      exists j :: 0 <= j < |r| && r[j].document == docs[i] by {
      forall i | 0 <= i < |docs| && Pending(fields, docs[i].id, user) != []
        ensures exists j :: 0 <= j < |r| && r[j].document == docs[i] {
        assert HasPendingFor(fields, user)(docs[i]);
        var j :| 0 <= j < |selected| && selected[j] == docs[i];
        assert r[j].document == docs[i];
      }
    }
    r
  }

  /** Over a table with unique ids, the to-sign list names each document once:
      several pending fields on one document give one entry. */
  lemma ToSignDistinct(docs: seq<Document>, fields: seq<SignatureField>, user: nat)
    requires UniqueBy(docs, (d: Document) => d.id)
    ensures var r := ToSign(docs, fields, user);
      forall j, k :: 0 <= j < k < |r| ==> r[j].document.id != r[k].document.id
  {
    var selected := Filter(docs, HasPendingFor(fields, user));
    FilterUniqueBy(docs, HasPendingFor(fields, user), (d: Document) => d.id);
    var r := ToSign(docs, fields, user);
    forall j, k | 0 <= j < k < |r| ensures r[j].document.id != r[k].document.id {
      assert r[j].document == selected[j] && r[k].document == selected[k];
    }
  }

  /** The values("id", "x", "y", "page") of one field. */
  datatype FieldView = FieldView(id: nat, x: int, y: int, page: int)

  function ViewOf(f: SignatureField): FieldView
  {
    FieldView(f.id, f.x, f.y, f.page)
  }

  /** A document row's id is below the next id and its owner is an account. */
  predicate DocumentRowOk(d: Document, accounts: map<nat, Account>, nextDocumentId: nat)
  {
    d.id < nextDocumentId && d.owner in accounts
  }

  /** A field row's assignee is an account and its document is stored. */
  predicate FieldRowOk(f: SignatureField, accounts: map<nat, Account>, documents: seq<Document>)
  {
    f.assignedUser in accounts && HasDocument(documents, f.document)
  }

  /** The invariants of the database: unique document ids below the next id,
      the field registry, and the foreign keys (owners and assignees are
      accounts, every field belongs to a stored document). */
  ghost predicate Consistent(accounts: map<nat, Account>, documents: seq<Document>, nextDocumentId: nat,
                             fields: seq<SignatureField>, nextFieldId: nat)
  {
    Registry(fields, nextFieldId) &&
    UniqueBy(documents, (d: Document) => d.id) &&
    (forall i {:trigger DocumentRowOk(documents[i], accounts, nextDocumentId)} ::
       0 <= i < |documents| ==> DocumentRowOk(documents[i], accounts, nextDocumentId)) &&
    (forall i {:trigger FieldRowOk(fields[i], accounts, documents)} ::
       0 <= i < |fields| ==> FieldRowOk(fields[i], accounts, documents))
  }

  /** Selecting rows keeps the registry. */
  lemma FilterKeepsRegistry(fields: seq<SignatureField>, nextId: nat, p: SignatureField -> bool)
    requires Registry(fields, nextId)
    ensures Registry(Filter(fields, p), nextId)
  {
    FilterUniqueBy(fields, p, (f: SignatureField) => f.id);
    FilterUniqueBy(fields, p, KeyOf);
    var r := Filter(fields, p);
    forall i | 0 <= i < |r| ensures r[i].id < nextId && NamedByKey(r[i]) {
      var j :| 0 <= j < |fields| && fields[j] == r[i];
      assert NamedByKey(fields[j]);
    }
  }

  /** A new document row with the next id and a known owner keeps the database consistent. */
  lemma AddDocumentKeepsConsistent(accounts: map<nat, Account>, documents: seq<Document>, nextDocumentId: nat,
                                   fields: seq<SignatureField>, nextFieldId: nat, d: Document)
    requires Consistent(accounts, documents, nextDocumentId, fields, nextFieldId)
    requires d.id == nextDocumentId && d.owner in accounts
    ensures Consistent(accounts, documents + [d], nextDocumentId + 1, fields, nextFieldId)
  {
    var ds := documents + [d];
    forall i | 0 <= i < |ds| ensures DocumentRowOk(ds[i], accounts, nextDocumentId + 1) {
      if i < |documents| { assert ds[i] == documents[i] && DocumentRowOk(documents[i], accounts, nextDocumentId); }
    }
    forall i, j | 0 <= i < j < |ds| ensures ds[i].id != ds[j].id {
      assert DocumentRowOk(documents[i], accounts, nextDocumentId);
      if j < |documents| { assert ds[i] == documents[i] && ds[j] == documents[j]; }
    }
    forall i | 0 <= i < |fields| ensures FieldRowOk(fields[i], accounts, ds) {
      assert FieldRowOk(fields[i], accounts, documents);
      var k :| 0 <= k < |documents| && documents[k].id == fields[i].document;
      assert ds[k] == documents[k];
    }
  }

  /** A save run keeps the database consistent: its rows belong to the saved
      document and to known accounts. */
  lemma SaveKeepsConsistent(accounts: map<nat, Account>, documents: seq<Document>, nextDocumentId: nat,
                            s0: SaveState, docId: nat, entries: seq<Entry>)
    requires Consistent(accounts, documents, nextDocumentId, s0.fields, s0.nextId)
    requires HasFieldsArray(s0.pdf) && HasDocument(documents, docId)
    ensures var r := SaveAll(accounts, docId, s0, entries);
      Consistent(accounts, documents, nextDocumentId, r.fields, r.nextId)
  {
    var r := SaveAll(accounts, docId, s0, entries);
    SaveAllKeepsRegistry(accounts, docId, s0, entries);
    forall i | 0 <= i < |r.fields| ensures FieldRowOk(r.fields[i], accounts, documents) {
      if r.fields[i] in s0.fields {
        var j :| 0 <= j < |s0.fields| && s0.fields[j] == r.fields[i];
        assert FieldRowOk(s0.fields[j], accounts, documents);
      }
    }
  }

  /** The document cascade keeps the database consistent. */
  lemma DeleteDocumentKeepsConsistent(accounts: map<nat, Account>, documents: seq<Document>, nextDocumentId: nat,
                                      fields: seq<SignatureField>, nextFieldId: nat, docId: nat)
    requires Consistent(accounts, documents, nextDocumentId, fields, nextFieldId)
    ensures var t := DeleteDocumentCascade(Tables(documents, fields), docId);
      Consistent(accounts, t.documents, nextDocumentId, t.fields, nextFieldId)
  {
    var t := DeleteDocumentCascade(Tables(documents, fields), docId);
    FilterKeepsRegistry(fields, nextFieldId, (f: SignatureField) => f.document != docId);
    FilterUniqueBy(documents, (d: Document) => d.id != docId, (d: Document) => d.id);
    forall i | 0 <= i < |t.documents| ensures DocumentRowOk(t.documents[i], accounts, nextDocumentId) {
      var j :| 0 <= j < |documents| && documents[j] == t.documents[i];
      assert DocumentRowOk(documents[j], accounts, nextDocumentId);
    }
    forall i | 0 <= i < |t.fields| ensures FieldRowOk(t.fields[i], accounts, t.documents) {
      var j :| 0 <= j < |fields| && fields[j] == t.fields[i];
      assert FieldRowOk(fields[j], accounts, documents);
      var k :| 0 <= k < |documents| && documents[k].id == fields[j].document;
      assert documents[k] in t.documents;
      var l :| 0 <= l < |t.documents| && t.documents[l] == documents[k];
    }
  }

  /** The flag update keeps the database consistent. */
  lemma MarkSignedKeepsConsistent(accounts: map<nat, Account>, documents: seq<Document>, nextDocumentId: nat,
                                  fields: seq<SignatureField>, nextFieldId: nat, docId: nat, user: nat)
    requires Consistent(accounts, documents, nextDocumentId, fields, nextFieldId)
    ensures Consistent(accounts, documents, nextDocumentId, MarkSigned(fields, docId, user), nextFieldId)
  {
    MarkSignedKeepsRegistry(fields, nextFieldId, docId, user);
    MarkSignedExactly(fields, docId, user);
    var r := MarkSigned(fields, docId, user);
    forall i | 0 <= i < |r| ensures FieldRowOk(r[i], accounts, documents) {
      assert FieldRowOk(fields[i], accounts, documents);
    }
  }

  /** The account cascade keeps the database consistent without the account. */
  lemma DeleteUserKeepsConsistent(accounts: map<nat, Account>, documents: seq<Document>, nextDocumentId: nat,
                                  fields: seq<SignatureField>, nextFieldId: nat, user: nat)
    requires Consistent(accounts, documents, nextDocumentId, fields, nextFieldId)
    ensures var t := DeleteUserCascade(Tables(documents, fields), user);
      Consistent(accounts - {user}, t.documents, nextDocumentId, t.fields, nextFieldId)
  {
    var t := DeleteUserCascade(Tables(documents, fields), user);
    var owned := OwnedIds(documents, user);
    FilterKeepsRegistry(fields, nextFieldId, (f: SignatureField) => f.assignedUser != user && f.document !in owned);
    FilterUniqueBy(documents, (d: Document) => d.owner != user, (d: Document) => d.id);
    forall i | 0 <= i < |t.documents| ensures DocumentRowOk(t.documents[i], accounts - {user}, nextDocumentId) {
      var j :| 0 <= j < |documents| && documents[j] == t.documents[i];
      assert DocumentRowOk(documents[j], accounts, nextDocumentId);
    }
    forall i | 0 <= i < |t.fields| ensures FieldRowOk(t.fields[i], accounts - {user}, t.documents) {
      var j :| 0 <= j < |fields| && fields[j] == t.fields[i];
      assert FieldRowOk(fields[j], accounts, documents);
      UserCascadeKeepsDocument(documents, t.documents, user, fields[j].document);
    }
  }

  lemma UserCascadeKeepsDocument(documents: seq<Document>, kept: seq<Document>, user: nat, id: nat)
    requires kept == Filter(documents, (d: Document) => d.owner != user)
    requires HasDocument(documents, id) && id !in OwnedIds(documents, user)
    ensures HasDocument(kept, id)
  {
    var k :| 0 <= k < |documents| && documents[k].id == id;
    assert documents[k] in kept;
    var l :| 0 <= l < |kept| && kept[l] == documents[k];
  }

  // ---------------------------------------------------------------------------
  // The site: the database tables and the media directory.

  class Site {
    /** settings.MEDIA_ROOT */
    const mediaRoot: string
    /** Accounts by primary key. */
    var accounts: map<nat, Account>
    var documents: seq<Document>
    var nextDocumentId: nat
    var fields: seq<SignatureField>
    var nextFieldId: nat
    /** The media directory: PDF files by their name relative to MEDIA_ROOT. */
    var files: map<string, Pdf>

    /** Unique document ids, the field registry, and the foreign keys:
        owners and assignees are accounts, fields belong to documents. */
    ghost predicate Valid()
      reads this
    {
      Consistent(accounts, documents, nextDocumentId, fields, nextFieldId)
    }

    /** UploadDocumentView.form_valid: the caller's file stored under
        documents/<username>/<filename> as a new, unsigned document. */
    method UploadDocument(caller: nat, filename: string, pdf: Pdf) returns (id: nat, resp: Response)
      requires Valid() && caller in accounts
      modifies this
      ensures Valid()
      ensures accounts == old(accounts) && fields == old(fields) && nextFieldId == old(nextFieldId)
      ensures id == old(nextDocumentId) && resp == Redirect("assign_signatures")
      ensures documents == old(documents) + [NewDocument(id, caller, DocumentUploadPath(accounts[caller].username, filename))]
      ensures files == old(files)[DocumentUploadPath(accounts[caller].username, filename) := pdf]
      ensures nextDocumentId == old(nextDocumentId) + 1
    {
      id := nextDocumentId;
      var file := DocumentUploadPath(accounts[caller].username, filename);
      var document := NewDocument(id, caller, file);
      AddDocumentKeepsConsistent(accounts, documents, nextDocumentId, fields, nextFieldId, document);
      documents := documents + [document];
      nextDocumentId := nextDocumentId + 1;
      files := files[file := pdf];
      resp := Redirect("assign_signatures");
    }

    /** SaveSignaturesView.post. */
    method SaveSignatures(docId: nat, body: Body) returns (resp: Response)
      requires Valid()
      modifies this
      ensures Valid()
      ensures accounts == old(accounts) && documents == old(documents) && nextDocumentId == old(nextDocumentId)
      ensures var found := FindDocument(old(documents), docId);
        var parsed := ValidateBody(body);
        if found.None? then resp == NotFound && unchanged(this)
        else if parsed.Failure? then resp == Json(400, ErrorBody(parsed.error)) && unchanged(this)
        else if found.value.file !in old(files) then resp == ServerError && unchanged(this)
        else
          var r := SaveAll(old(accounts), docId,
                           SaveState(old(fields), old(nextFieldId), EnsureFieldsArray(old(files)[found.value.file]), [], Running),
                           parsed.value);
          fields == r.fields && nextFieldId == r.nextId &&
          (r.halt == UnknownUser ==> resp == NotFound && files == old(files)) &&
          (r.halt == PageNotFound ==> resp == ServerError && files == old(files)) &&
          (r.halt == Running ==> resp == Json(201, SavedBody(r.saved)) && files == (old(files) - {TempName(found.value.file)})[found.value.file := r.pdf])
    {
      var found := FindDocument(documents, docId);
      if found.None? {
        return NotFound;
      }
      var document := found.value;
      var parsed := ValidateBody(body);
      if parsed.Failure? {
        return Json(400, ErrorBody(parsed.error));
      }
      if document.file !in files {
        return ServerError;
      }
      var writer := EnsureFieldsArray(files[document.file]);
      SaveKeepsConsistent(accounts, documents, nextDocumentId, SaveState(fields, nextFieldId, writer, [], Running), docId, parsed.value);
      var halt, saved;
      halt, writer, saved := SaveEntries(docId, parsed.value, writer);
      if halt == UnknownUser {
        return NotFound;
      } else if halt == PageNotFound {
        return ServerError;
      }
      files := (files - {TempName(document.file)})[document.file := writer];
      resp := Json(201, SavedBody(saved));
    }

    /** The loop of SaveSignaturesView.post over the submitted entries: rows are
        written as it goes; an unknown assignee (the 404) or a page the PDF
        lacks (the 500) stops it, with no further entry handled. */
    method SaveEntries(docId: nat, entries: seq<Entry>, writer0: Pdf) returns (halt: Halt, writer: Pdf, saved: seq<SavedEntry>)
      requires HasFieldsArray(writer0)
      modifies this
      ensures var r := SaveAll(old(accounts), docId, SaveState(old(fields), old(nextFieldId), writer0, [], Running), entries);
        fields == r.fields && nextFieldId == r.nextId && writer == r.pdf && saved == r.saved && halt == r.halt
      ensures accounts == old(accounts) && documents == old(documents) && files == old(files) && nextDocumentId == old(nextDocumentId)
    {
      ghost var s0 := SaveState(fields, nextFieldId, writer0, [], Running);
      var rows := fields;
      var nextId := nextFieldId;
      writer := writer0;
      saved := [];
      var i := 0;
      while i < |entries|
        invariant 0 <= i <= |entries|
        invariant HasFieldsArray(writer)
        invariant SaveAll(accounts, docId, s0, entries[..i]) == SaveState(rows, nextId, writer, saved, Running)
        invariant unchanged(this)
      {
        var e := entries[i];
        SaveAllSnoc(accounts, docId, s0, entries, i);
        if Complete(e) {
          var userId := e.assignedUserId.value;
          if userId !in accounts {
            // The 404: the rows written so far stay, the PDF is not written.
            SaveAllStoppedAt(accounts, docId, s0, entries, i);
            fields, nextFieldId := rows, nextId;
            return UnknownUser, writer, saved;
          }
          var key := EntryKey(docId, e);
          var fieldName := FieldName(key);
          var u := UpdateOrCreate(rows, nextId, key, fieldName);
          if !HasPage(writer, key.page - 1) {
            // append_signature_field raises (the 500): the upsert stays, the PDF is not written.
            SaveStepPageMissing(accounts, docId, SaveState(rows, nextId, writer, saved, Running), e);
            SaveAllStoppedAt(accounts, docId, s0, entries, i);
            fields, nextFieldId := u.fields, u.nextId;
            return PageNotFound, writer, saved;
          }
          SaveStepAccepted(accounts, docId, SaveState(rows, nextId, writer, saved, Running), e);
          rows, nextId := u.fields, u.nextId;
          writer := AppendSignatureField(writer, fieldName, key.page - 1, FieldBox(key.x, key.y));
          saved := saved + [SavedEntry(u.record.id, accounts[userId].username, u.record.x, u.record.y, u.record.page, fieldName, u.created)];
        }
        i := i + 1;
      }
      assert entries[..i] == entries;
      fields, nextFieldId := rows, nextId;
      halt := Running;
    }

    /** SignDocumentView.post: stamp the caller's pending fields onto a copy
        of the document, check that the copy's form has every assigned name,
        then mark exactly those fields signed. The signing itself (PKCS#12
        certificate, PdfSigner) is taken to succeed; the signed file is the
        copy with its form ensured. */
    method SignDocument(caller: nat, docId: nat, image: Option<ImageSize>) returns (resp: Response)
      requires Valid()
      modifies this
      ensures Valid()
      ensures accounts == old(accounts) && documents == old(documents)
      ensures nextFieldId == old(nextFieldId) && nextDocumentId == old(nextDocumentId)
      ensures var found := FindDocument(old(documents), docId);
        var pending := Pending(old(fields), docId, caller);
        if found.None? then resp == NotFound && unchanged(this)
        else if pending == [] then resp == Json(400, ErrorBody("No pending signatures found")) && unchanged(this)
        else if image.None? then resp == Json(400, ErrorBody("No registered signature image found")) && unchanged(this)
        else if found.value.file !in old(files) then resp == ServerError && unchanged(this)
        else
          var file := found.value.file;
          var overlay := Overlay(old(files)[file], pending, image.value);
          var writer := EnsureFieldsArray(overlay);
          var missing := FirstMissing(FieldNames(pending), SigFieldNames(FormFields(writer)));
          file in files && files[file] == old(files)[file] &&
          (missing.Some? ==>
            resp == Json(400, ErrorBody("Signature field '" + missing.value + "' not found in the PDF")) &&
            fields == old(fields) && files == old(files)[TempName(file) := overlay]) &&
          (missing.None? ==>
            resp == Json(200, SignedBody(Join(mediaRoot, SignedName(file)))) &&
            fields == MarkSigned(old(fields), docId, caller) &&
            files == old(files)[TempName(file) := overlay][SignedName(file) := writer])
    {
      var found := FindDocument(documents, docId);
      if found.None? {
        return NotFound;
      }
      var document := found.value;
      var pending := Pending(fields, docId, caller);
      if pending == [] {
        return Json(400, ErrorBody("No pending signatures found"));
      }
      if image.None? {
        return Json(400, ErrorBody("No registered signature image found"));
      }
      if document.file !in files {
        return ServerError;
      }
      resp := StampAndSign(docId, caller, document, pending, image.value);
    }

    /** The signing half of SignDocumentView.post, once the document, the
        pending fields, the image and the file are known: stamp, write the
        temporary file, check the names, then sign and mark. */
    method StampAndSign(docId: nat, caller: nat, document: Document, pending: seq<SignatureField>, img: ImageSize)
      returns (resp: Response)
      requires Valid()
      requires pending == Pending(fields, docId, caller) && document.file in files
      modifies this
      ensures Valid()
      ensures accounts == old(accounts) && documents == old(documents)
      ensures nextFieldId == old(nextFieldId) && nextDocumentId == old(nextDocumentId)
      ensures var file := document.file;
        var overlay := Overlay(old(files)[file], pending, img);
        var writer := EnsureFieldsArray(overlay);
        var missing := FirstMissing(FieldNames(pending), SigFieldNames(FormFields(writer)));
        (missing.Some? ==>
          resp == Json(400, ErrorBody("Signature field '" + missing.value + "' not found in the PDF")) &&
          fields == old(fields) && files == old(files)[TempName(file) := overlay]) &&
        (missing.None? ==>
          resp == Json(200, SignedBody(Join(mediaRoot, SignedName(file)))) &&
          fields == MarkSigned(old(fields), docId, caller) &&
          files == old(files)[TempName(file) := overlay][SignedName(file) := writer])
    {
      var overlay := BuildOverlay(files[document.file], pending, img);
      files := files[TempName(document.file) := overlay];
      var writer := EnsureFieldsArray(overlay);
      var available := SigFieldNames(FormFields(writer));
      var missing := CheckFieldNames(FieldNames(pending), available);
      if missing.Some? {
        return Json(400, ErrorBody("Signature field '" + missing.value + "' not found in the PDF"));
      }
      files := files[SignedName(document.file) := writer];
      MarkSignedKeepsConsistent(accounts, documents, nextDocumentId, fields, nextFieldId, docId, caller);
      fields := MarkSigned(fields, docId, caller);
      resp := Json(200, SignedBody(Join(mediaRoot, SignedName(document.file))));
    }

    /** DeleteDocumentView.get: only the owner may delete; the file leaves the
        media directory and the document leaves the table with its fields. */
    method DeleteDocument(caller: nat, docId: nat) returns (resp: Response)
      requires Valid()
      modifies this
      ensures Valid()
      ensures accounts == old(accounts) && nextFieldId == old(nextFieldId) && nextDocumentId == old(nextDocumentId)
      ensures var found := FindDocument(old(documents), docId);
        if found.None? then resp == NotFound && unchanged(this)
        else if found.value.owner != caller then resp == Forbidden && unchanged(this)
        else
          var t := DeleteDocumentCascade(Tables(old(documents), old(fields)), docId);
          resp == Redirect("document_list") &&
          documents == t.documents && fields == t.fields && files == old(files) - {found.value.file}
    {
      var found := FindDocument(documents, docId);
      if found.None? {
        return NotFound;
      }
      var document := found.value;
      if document.owner != caller {
        return Forbidden;
      }
      files := files - {document.file};
      var t := DeleteDocumentCascade(Tables(documents, fields), docId);
      DeleteDocumentKeepsConsistent(accounts, documents, nextDocumentId, fields, nextFieldId, docId);
      documents, fields := t.documents, t.fields;
      resp := Redirect("document_list");
    }

    /** Deleting an account: its documents and every field assigned to it or
        on its documents go with it (the cascades); files stay on disk. */
    method DeleteAccount(user: nat)
      requires Valid()
      modifies this
      ensures Valid()
      ensures accounts == old(accounts) - {user}
      ensures var t := DeleteUserCascade(Tables(old(documents), old(fields)), user);
        documents == t.documents && fields == t.fields
      ensures files == old(files) && nextFieldId == old(nextFieldId) && nextDocumentId == old(nextDocumentId)
    {
      var t := DeleteUserCascade(Tables(documents, fields), user);
      DeleteUserKeepsConsistent(accounts, documents, nextDocumentId, fields, nextFieldId, user);
      documents, fields := t.documents, t.fields;
      accounts := accounts - {user};
    }

    /** DocumentListView.get_queryset: the caller's own documents. */
    function DocumentList(caller: nat): (r: seq<Document>)
      reads this
      ensures forall i :: 0 <= i < |r| ==> r[i] in documents && r[i].owner == caller
      ensures forall i :: 0 <= i < |documents| && documents[i].owner == caller ==> documents[i] in r
    {
      Filter(documents, (d: Document) => d.owner == caller)
    }

    /** ToSignListView.get_queryset. */
    function ToSignList(caller: nat): (r: seq<ToSignEntry>)
      reads this
      ensures forall j :: 0 <= j < |r| ==> r[j].document in documents && r[j].pendingCount >= 1
      ensures forall j :: 0 <= j < |r| ==> r[j].pendingCount == |Pending(fields, r[j].document.id, caller)|
      ensures forall i :: 0 <= i < |documents| && Pending(fields, documents[i].id, caller) != [] ==>
        exists j :: 0 <= j < |r| && r[j].document == documents[i]
      ensures Valid() ==> forall j, k :: 0 <= j < k < |r| ==> r[j].document.id != r[k].document.id
    {
      var r := ToSign(documents, fields, caller);
      assert Valid() ==> forall j, k :: 0 <= j < k < |r| ==> r[j].document.id != r[k].document.id by {
        if Valid() {
          ToSignDistinct(documents, fields, caller);
        }
      }
      r
    }

    /** AssignSignaturesView.dispatch: the page exists only for the owner. */
    function AssignPage(caller: nat, docId: nat): (r: Option<Document>)
      reads this
      ensures r.Some? <==> exists i :: 0 <= i < |documents| && documents[i].id == docId && documents[i].owner == caller
      ensures r.Some? ==> r.value in documents && r.value.id == docId && r.value.owner == caller
    {
      var owned := Filter(documents, (d: Document) => d.id == docId && d.owner == caller);
      if owned == [] then None
      else Some(owned[0])
    }

    /** SignDocumentView.get: the id, x, y and page of the caller's pending
        fields on the document, or 404 for an unknown document. */
    function SignPage(caller: nat, docId: nat): (r: Option<seq<FieldView>>)
      reads this
      ensures r.None? <==> !HasDocument(documents, docId)
      ensures r.Some? ==> |r.value| == |Pending(fields, docId, caller)|
      ensures r.Some? ==> forall j :: 0 <= j < |r.value| ==> r.value[j] == ViewOf(Pending(fields, docId, caller)[j])
    {
      if FindDocument(documents, docId).None? then None
      else
        var p := Pending(fields, docId, caller);
        Some(seq(|p|, j requires 0 <= j < |p| => ViewOf(p[j])))
    }

    constructor (mediaRoot: string, accounts: map<nat, Account>)
      ensures Valid()
      ensures this.mediaRoot == mediaRoot && this.accounts == accounts
      ensures documents == [] && fields == [] && files == map[]
    {
      this.mediaRoot := mediaRoot;
      this.accounts := accounts;
      documents := [];
      nextDocumentId := 0;
      fields := [];
      nextFieldId := 0;
      files := map[];
    }
  }
}
