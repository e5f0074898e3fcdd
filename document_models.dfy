/** The Document and SignatureField records (documents/models.py): the upload
    path, the string forms, the column defaults and the cascade rules. */
module DocumentModels {
  import opened Text
  import opened Seqs

  /** A stored document: its owner's account key, its file name relative to
      the media root, and the signed flag. */
  datatype Document = Document(id: nat, owner: nat, file: string, signed: bool)

  /** A signature field assigned to one user on one page of one document.
      The geometry is only a page number and a point; the record has no size. */
  datatype SignatureField = SignatureField(
    id: nat,
    document: nat,
    assignedUser: nat,
    page: int,
    x: int,
    y: int,
    fieldName: string,
    signed: bool)

  const DocumentsDir := "documents/"

  /** document_upload_path: documents/<owner username>/<filename>. */
  function DocumentUploadPath(ownerUsername: string, filename: string): (r: string)
    ensures StartsWith(r, DocumentsDir) && EndsWith(r, filename)
    ensures |r| == |DocumentsDir| + |ownerUsername| + 1 + |filename|
    ensures r[|DocumentsDir| + |ownerUsername|] == '/'
    ensures r[|DocumentsDir|..|DocumentsDir| + |ownerUsername|] == ownerUsername
  {
    DocumentsDir + (ownerUsername + ("/" + filename))
  }

  /** For usernames without '/', the path determines both the owner and the file name. */
  lemma UploadPathDeterminesOwner(u1: string, f1: string, u2: string, f2: string)
    requires Free(u1, '/') && Free(u2, '/')
    requires DocumentUploadPath(u1, f1) == DocumentUploadPath(u2, f2)
    ensures u1 == u2 && f1 == f2
  {
    SamePrefix(DocumentsDir, u1 + ("/" + f1), u2 + ("/" + f2));
    SplitAtSeparator(u1, f1, u2, f2, '/');
  }

  /** str(document): "<file name> (Uploaded by <owner username>)". */
  function DocumentStr(fileName: string, ownerUsername: string): (r: string)
    ensures StartsWith(r, fileName)
    ensures EndsWith(r, " (Uploaded by " + ownerUsername + ")")
    ensures |r| == |fileName| + 15 + |ownerUsername|
  {
    fileName + " (Uploaded by " + ownerUsername + ")"
  }

  /** str(signature field): "Signature for <username> on <file name>". */
  function SignatureFieldStr(assigneeUsername: string, fileName: string): (r: string)
    ensures StartsWith(r, "Signature for " + assigneeUsername)
    ensures EndsWith(r, " on " + fileName)
    ensures |r| == 14 + |assigneeUsername| + 4 + |fileName|
  {
    "Signature for " + assigneeUsername + " on " + fileName
  }

  /** A document as created: the signed column defaults to false. */
  function NewDocument(id: nat, owner: nat, file: string): (d: Document)
    ensures !d.signed
    ensures d.id == id && d.owner == owner && d.file == file
  {
    Document(id, owner, file, false)
  }

  /** A signature field as created: the signed column defaults to false. */
  function NewSignatureField(id: nat, document: nat, assignedUser: nat, page: int, x: int, y: int, fieldName: string): (f: SignatureField)
    ensures !f.signed
    ensures f.id == id && f.document == document && f.assignedUser == assignedUser
    ensures f.page == page && f.x == x && f.y == y && f.fieldName == fieldName
  {
    SignatureField(id, document, assignedUser, page, x, y, fieldName, false)
  }

  /** The two tables the cascade rules act on. */
  datatype Tables = Tables(documents: seq<Document>, fields: seq<SignatureField>)

  /** Deleting a document row deletes every signature field of that document
      (on_delete=CASCADE on SignatureField.document) and nothing else. */
  function DeleteDocumentCascade(t: Tables, docId: nat): (r: Tables)
    ensures forall i :: 0 <= i < |r.documents| ==> r.documents[i].id != docId && r.documents[i] in t.documents
    ensures forall i :: 0 <= i < |t.documents| && t.documents[i].id != docId ==> t.documents[i] in r.documents
    ensures forall i :: 0 <= i < |r.fields| ==> r.fields[i].document != docId && r.fields[i] in t.fields
    ensures forall i :: 0 <= i < |t.fields| && t.fields[i].document != docId ==> t.fields[i] in r.fields
  {
    Tables(Filter(t.documents, (d: Document) => d.id != docId),
           Filter(t.fields, (f: SignatureField) => f.document != docId))
  }

  /** The documents owned by the account. */
  function OwnedIds(docs: seq<Document>, user: nat): (r: set<nat>)
    ensures forall i :: 0 <= i < |docs| && docs[i].owner == user ==> docs[i].id in r
    ensures forall id :: id in r ==> exists i :: 0 <= i < |docs| && docs[i].owner == user && docs[i].id == id
  {
    set i | 0 <= i < |docs| && docs[i].owner == user :: docs[i].id
  }

  /** Deleting an account deletes the documents it owns (Document.owner cascades),
      the fields of those documents, and the fields assigned to it
      (SignatureField.assigned_user cascades); every other row stays. */
  function DeleteUserCascade(t: Tables, user: nat): (r: Tables)
    ensures forall i :: 0 <= i < |r.documents| ==> r.documents[i].owner != user && r.documents[i] in t.documents
    ensures forall i :: 0 <= i < |t.documents| && t.documents[i].owner != user ==> t.documents[i] in r.documents
    ensures forall i :: 0 <= i < |r.fields| ==>
      r.fields[i].assignedUser != user && r.fields[i].document !in OwnedIds(t.documents, user) && r.fields[i] in t.fields
    ensures forall i :: 0 <= i < |t.fields| ==>
      (t.fields[i].assignedUser != user && t.fields[i].document !in OwnedIds(t.documents, user) ==> t.fields[i] in r.fields)
  {
    var owned := OwnedIds(t.documents, user);
    Tables(Filter(t.documents, (d: Document) => d.owner != user),
           Filter(t.fields, (f: SignatureField) => f.assignedUser != user && f.document !in owned))
  }
}
