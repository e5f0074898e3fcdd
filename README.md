# pdfsign core, modelled in Dafny

pdfsign is a Django site in which a user uploads a PDF, places signature fields on it and assigns each field to an account. Each assignee then stamps their registered signature image onto their fields, and the site signs the document. This project models that workflow together with the small helpers the site is built from.

**The signature-field workflow (`document_views.dfy`, class `DocumentViews.Site`)**
- The state is:
  - the account table;
  - the document table;
  - the signature-field table and its next id;
  - a map from media-relative file names to abstract PDFs.
- Upload stores the file under its upload path `documents/<owner>/<name>`, taken verbatim (Django's storage renaming is left out, see below).
- Save validates the JSON body and skips incomplete entries. It upserts one row per key (document, assignee, x, y, page), which resets `signed` and derives the field name from the key. It then adds one form field with a 100×50 box per accepted entry and answers with one response entry per accepted entry. An unknown assignee (404) or a page the PDF does not have (500) stops the loop, and the rows written before it stay.
- Sign selects the caller's unsigned fields on the document. It stamps one annotation per field onto the field's page and checks that every name exists in the PDF's signature fields. Only then does it mark exactly those rows signed.
- Delete and the list, to-sign, assign and sign pages enforce the owner and assignee rules.
- An invariant `Valid()` ties this state together: unique ids, one row per key, names derived from keys, and foreign keys that resolve. Every method preserves it.

**The abstract PDF (`pdf_model.dfy`)**
- A PDF is an optional AcroForm with an optional `/Fields` list, plus a sequence of pages. Each page has an optional `/Annots` list.
- The model covers the form-field append, the annotation append, and pypdf's `NumberObject` truncation.

**Records and their rules**
- `account_models.dfy`: account permission predicates and the column constraints.
- `document_models.dfy`: the document and signature-field records, their upload path, `__str__`, defaults and cascades.
- `signature_models.dfy`: the signature image record, its upload path, its media path and the one-per-user rule.

**Helpers**
- `flatten.py` (`flatten.dfy`): flatten a nested dict, and flatten a query dict.
- `scaffold.py` (`scaffold.dfy`): the template context scaffold written into a shared, class-level dict.
- `messages.py` (`messages.dfy`): the HTML message list.
- `random_string.py` and `usernames.py` (`random_string.dfy`, `usernames.dfy`): random strings and generated usernames, with each random pick modelled as a nondeterministic choice.
- `CrossAppAPIView.py` (`cross_app_api.dfy`): the ordered configuration checks.
- `url.py` (`url.dfy`): the URL mixin, whose `get_url` and `get_url_path` each default to the other.
- `thread_aware.py` (`thread_aware.dfy`): the current-user record filter, with the current user passed in as a parameter.

**Shared building blocks**
- `wrappers.dfy`: Option and Result.
- `text.dfy`: decimal rendering with its round trip, prefixes, and `os.path.join`.
- `seqs.dfy`: an order-keeping filter.

## Model

| member | source | states |
|---|---|---|
| AccountModels.NewAccount | accounts/models/account/models.py:57-58 | a new account is active and not an administrator, with the given username and email |
| AccountModels.HasPerm | accounts/models/account/models.py:69-72 | has_perm grants every permission on every object |
| AccountModels.HasModulePerms | accounts/models/account/models.py:74-77 | module permissions are held exactly when the account is an administrator, whatever the slug |
| AccountModels.CountCodenamePositive | accounts/models/account/models.py:82 | a role's count of permissions with a codename is positive iff the role holds that codename |
| AccountModels.MatchingRowsPositive | accounts/models/account/models.py:82 | the membership query has a row iff some membership's role holds the codename |
| AccountModels.HasPerms | accounts/models/account/models.py:79-82 | has_perms is true iff the account is an administrator or some membership's role holds a permission with that codename |
| AccountModels.IsStaff | accounts/models/account/models.py:84-88 | is_staff equals is_admin |
| AccountModels.IsSuperuser | accounts/models/account/models.py:90-94 | is_superuser equals is_admin, and so equals is_staff |
| AccountModels.Insert | accounts/models/account/models.py:37-55 | a row is accepted iff its username is at most 50 characters, its email (if any) is at most 255, and neither collides with an existing row; an accepted row is appended and keeps the table's uniqueness |
| DocumentModels.DocumentUploadPath | documents/models.py:4-6 | the path is `documents/`, then the owner's username, then `/`, then the filename, each in its place |
| DocumentModels.UploadPathDeterminesOwner | documents/models.py:4-6 | for usernames without '/', the upload path determines both the owner and the filename |
| DocumentModels.DocumentStr | documents/models.py:18-19 | str(Document) is the file name followed by " (Uploaded by <username>)" |
| DocumentModels.SignatureFieldStr | documents/models.py:34-35 | str(SignatureField) is "Signature for <assignee>" followed by " on <file name>", with nothing else: the length is exactly that of the parts |
| DocumentModels.NewDocument | documents/models.py:14-16 | a new document is unsigned and has the given owner and file |
| DocumentModels.NewSignatureField | documents/models.py:22-32 | a new signature field is unsigned, and its geometry is only page, x and y |
| DocumentModels.DeleteDocumentCascade | documents/models.py:22 | deleting a document removes it and every field on it, and keeps every other document and field |
| DocumentModels.OwnedIds | documents/models.py:9-13 | the ids of exactly the documents a user owns |
| DocumentModels.DeleteUserCascade | documents/models.py:9-13 | deleting a user removes their documents, the fields on those documents and the fields assigned to them, and keeps every other row |
| SignatureModels.SignatureUploadPath | signatures/models.py:6-8 | the path is `signatures/` + username + `_signature.png`, whatever the uploaded filename |
| SignatureModels.SameUserSamePath | signatures/models.py:8 | two uploads by the same user map to the same path |
| SignatureModels.DistinctUsersDistinctPaths | signatures/models.py:8 | different usernames never share a path |
| SignatureModels.SignaturePath | signatures/models.py:20-25 | None exactly when no image is set; otherwise MEDIA_ROOT joined with the image name |
| SignatureModels.SignatureOf | signatures/models.py:12-16 | the user's signature when one exists, and None only when no row belongs to the user |
| SignatureModels.InsertSignature | signatures/models.py:12-16 | a second signature for a user is refused; an accepted one is appended and keeps at most one per user |
| PdfModel.EnsureFieldsArray | documents/views.py:151-163 | afterwards the AcroForm and its /Fields exist; existing fields and pages are kept; a PDF that already has both is unchanged |
| PdfModel.AppendSignatureField | documents/views.py:188-193 | exactly one signature field with the given name, page and box is appended; pages unchanged |
| PdfModel.SigFieldNames | documents/views.py:330-331 | the names of exactly the signature fields of the form |
| PdfModel.AppendAnnotation | documents/views.py:289-293 | the annotation goes after the existing /Annots, or starts a new list; contents unchanged |
| PdfModel.AddAnnotations | documents/views.py:270-293 | a run of stamps goes after the existing /Annots; an empty run leaves the page as it was |
| PdfModel.AddOneMore | documents/views.py:270-293 | appending one more annotation equals adding the longer run |
| PdfModel.NumberObject | documents/views.py:280-283 | a real is truncated toward zero |
| PdfModel.NumberObjectOfInt | documents/views.py:280-281 | a whole coordinate passes through unchanged |
| Text.NatToStringRoundTrip | documents/views.py:175 | the decimal rendering used in field names reads back as the number |
| Text.IntToStringRoundTrip | documents/views.py:175 | a signed decimal rendering reads back as the integer |
| Text.IntToStringInjective | documents/views.py:175 | different integers have different renderings |
| Text.NatToStringInjective | documents/views.py:175 | different naturals (document and user ids in field names) have different renderings |
| Text.UpToFirst | common_core/models/url.py:35 | the scan for the scheme colon or the end of the network location stops at the first stop character |
| Text.SplitAtSeparator | documents/views.py:175 | two strings joined by a separator that neither first part contains split back uniquely |
| Text.Join | signatures/models.py:24 | os.path.join: an absolute second part replaces the first; an empty first part or one ending in '/' gives exactly a + b; otherwise a, then one '/', then b |
| Seqs.Filter | documents/views.py:221-225 | a queryset filter: every element kept satisfies the predicate and comes from the table, and every table element that satisfies it is kept |
| Seqs.FilterAppend | documents/views.py:221-225 | the filter of a concatenation is the filter of each part, in order: the selection keeps the table's order |
| Seqs.FilterSingle | documents/views.py:221-225 | a single element is kept exactly when it satisfies the predicate |
| Seqs.FilterKeepsAll | common_core/managers/thread_aware.py:21 | a filter returns its input iff every element satisfies the predicate |
| Seqs.FilterNone | common_core/managers/thread_aware.py:21 | a filter that matches nothing returns [] |
| Seqs.FilterUniqueBy | documents/views.py:241-243 | filtering keeps a key unique |
| DocumentViews.FieldName | documents/views.py:175 | the derived field name starts with `Signature_` |
| DocumentViews.FieldNameInjective | documents/views.py:175 | distinct (document, user, x, y, page) keys give distinct field names |
| DocumentViews.FieldBox | documents/views.py:191 | the box is (x, y, x+100, y+50) |
| DocumentViews.RegistryNamesUnique | documents/views.py:175-185 | in a registry whose names come from their keys, no two rows share a name |
| DocumentViews.FindKey | documents/views.py:178-185 | the index of a row with the key, and None only when no row has it |
| DocumentViews.UpdateOrCreate | documents/views.py:178-185 | the row is created (with the next id) iff the key is new, and otherwise the matching row is replaced in place; in both cases the row carries the key and the derived name and is unsigned |
| DocumentViews.UpdateOrCreateKeepsRegistry | documents/views.py:178-185 | an upsert keeps ids unique, keys unique and names derived from keys |
| DocumentViews.CreatedKeepsRegistry | documents/views.py:178-185 | appending a row with a fresh key and the next id keeps the registry |
| DocumentViews.UpdatedKeepsRegistry | documents/views.py:178-185 | replacing a row by one with the same key and id keeps the registry |
| DocumentViews.ValidateBody | documents/views.py:135-142 | "Invalid JSON data" iff the body does not parse; "No signature fields provided" iff the list is missing or empty; otherwise the non-empty list |
| DocumentViews.Specs | documents/views.py:188-192 | one form field per response entry, in order |
| DocumentViews.SaveStep | documents/views.py:165-203 | a step keeps the AcroForm /Fields array; its cases are stated by SaveStepAccepted, SaveStepPageMissing and SaveStepForm |
| DocumentViews.SaveAll | documents/views.py:165-203 | the loop keeps the AcroForm /Fields array |
| DocumentViews.SaveAllSnoc | documents/views.py:165 | the loop over a longer prefix is one more step |
| DocumentViews.SaveStepAccepted | documents/views.py:172-203 | an accepted entry on a page the PDF has upserts its key, appends one field with the derived name on page-1 in the 100×50 box, and appends one response entry |
| DocumentViews.SaveStepPageMissing | documents/views.py:178-193 | an accepted entry whose page-1 is outside the PDF's pages (counting negative indexes from the back) keeps its upsert, adds no form field and no response entry, and stops the loop |
| DocumentViews.SaveAllStoppedAt | documents/views.py:172-193 | once an unknown user or a missing page stops the loop, later entries change nothing |
| DocumentViews.SaveAllStopped | documents/views.py:172-193 | a stopped save stays as it is |
| DocumentViews.SaveAllAppend | documents/views.py:165 | saving a + b is saving a and then b |
| DocumentViews.SaveAllKeepsRegistry | documents/views.py:165-185 | the save loop keeps the registry; each row it adds is on this document and assigned to an existing account |
| DocumentViews.SaveStepForm | documents/views.py:165-203 | a step adds either nothing, or one response entry together with its form field |
| DocumentViews.SpecsSnoc | documents/views.py:188-195 | the form fields of a longer response list end with the new entry's field |
| DocumentViews.FormFieldsExtend | documents/views.py:188-195 | the form written so far stays the old form plus one field per response entry |
| DocumentViews.SaveAllFormFields | documents/views.py:188-203 | the form written is the old form followed by one signature field per response entry, in response order |
| DocumentViews.SaveAllResponds | documents/views.py:165-203 | unless the loop stopped, the response has exactly one entry describing each complete entry, in submission order, with incomplete ones skipped |
| DocumentViews.SaveAllStoresKeys | documents/views.py:169-185 | every pre-existing key stays stored, and after a completed save every complete entry's key is stored |
| DocumentViews.SaveAllPagesExist | documents/views.py:188-212 | the save never changes the pages, and a save that was not stopped found the page of every complete entry |
| DocumentViews.SaveAllNoNewRows | documents/views.py:178-185 | when every key is already stored, the save adds no row, hands out no id and answers created = false throughout |
| DocumentViews.ResubmitAddsNoRows | documents/views.py:178-185 | submitting the same list a second time adds no row, and every created flag is false |
| DocumentViews.UpsertFrame | documents/views.py:178-185 | update_or_create changes only rows with its key; every row it adds or rewrites has that key and is unsigned |
| DocumentViews.SaveStepFrame | documents/views.py:165-203 | one step changes only the row with the entry's key, and every row it adds or rewrites has that key and is unsigned |
| DocumentViews.SaveAllFrame | documents/views.py:165-203 | the save changes nothing else: a row whose key no complete entry carries keeps its place, id, name and signed flag; every row added or rewritten has a submitted key and is unsigned |
| DocumentViews.Pending | documents/views.py:241-243 | exactly the caller's unsigned fields on the document |
| DocumentViews.NotAssignedNothingPending | documents/views.py:241-246 | a caller with no unsigned field on the document has nothing pending, whether or not they were ever assigned one |
| DocumentViews.StampFor | documents/views.py:276-287 | a /Stamp named by the field name, with rectangle [x, y, x+⌊w/3⌋, y+⌊h/3⌋] for non-negative coordinates |
| DocumentViews.Stamps | documents/views.py:270-287 | one stamp per field, in order |
| DocumentViews.Overlay | documents/views.py:262-296 | pages are copied in order and the form is kept (the corrected copy of the finding below); page i gains the stamps of the pending fields whose page is i + 1, after any existing /Annots |
| DocumentViews.OverlayStampsOnce | documents/views.py:262-296 | page i carries a stamp named f exactly when f's page is i + 1, and carries no name twice |
| DocumentViews.PendingNamesUnique | documents/views.py:241-243 | the pending fields' names are distinct |
| DocumentViews.FieldNames | documents/views.py:325 | the pending fields' names, in order |
| DocumentViews.FirstMissing | documents/views.py:335-337 | any name reported is pending and absent from the PDF |
| DocumentViews.FirstMissingSpec | documents/views.py:335-337 | no name is reported iff every pending name is available; the one reported is the first missing |
| DocumentViews.OverlayDroppingFormFails | documents/views.py:259-337 | over a page copy without the /AcroForm, the form seen by the check is empty and the first pending name is reported missing |
| DocumentViews.OverlayKeepsFormPasses | documents/views.py:259-337 | over the copy that keeps the form, the check passes iff every pending name is a signature field of the document |
| DocumentViews.MarkSigned | documents/views.py:363 | the table keeps its length |
| DocumentViews.MarkSignedExactly | documents/views.py:363 | exactly the pending rows change, and only in their signed flag; afterwards nothing is pending |
| DocumentViews.MarkSignedKeepsRegistry | documents/views.py:363 | marking rows signed keeps the registry |
| DocumentViews.TempName | documents/views.py:146 | the temporary file never overwrites the document |
| DocumentViews.SignedName | documents/views.py:256 | the signed file is neither the document nor the temporary file |
| DocumentViews.FindDocument | documents/views.py:134 | get_object_or_404: the row with the id, and None (404) only when there is none |
| DocumentViews.BuildOverlay | documents/views.py:262-296 | the page loop's result is the overlay |
| DocumentViews.CheckFieldNames | documents/views.py:335-337 | the check loop reports the first missing name |
| DocumentViews.ToSign | documents/views.py:106-109 | each document listed has at least one unsigned field for the caller and carries that count; every such document is listed |
| DocumentViews.ToSignDistinct | documents/views.py:103-109 | over a document table with unique ids, no document is listed twice |
| DocumentViews.FilterKeepsRegistry | documents/models.py:22 | removing rows keeps the registry |
| DocumentViews.AddDocumentKeepsConsistent | documents/views.py:38-42 | adding a document owned by an account keeps the database consistent |
| DocumentViews.SaveKeepsConsistent | documents/views.py:165-185 | a save on an existing document keeps the database consistent |
| DocumentViews.DeleteDocumentKeepsConsistent | documents/views.py:91 | a document delete with its cascade keeps the database consistent |
| DocumentViews.MarkSignedKeepsConsistent | documents/views.py:363 | marking rows signed keeps the database consistent |
| DocumentViews.DeleteUserKeepsConsistent | documents/models.py:9-13 | a user delete with its cascade keeps the database consistent |
| DocumentViews.UserCascadeKeepsDocument | documents/models.py:9-13 | a document the deleted user does not own survives the deletion |
| DocumentViews.Site.UploadDocument | documents/views.py:38-60 | the document is appended with the next id, owned by the caller, stored under its upload path, and the caller is redirected to the assign page |
| DocumentViews.Site.SaveSignatures | documents/views.py:133-212 | 404 for an unknown document and 400 for a bad body, each changing nothing; otherwise the rows become the save loop's rows; an unknown assignee gives 404 and a page the PDF lacks gives 500, each with the files unchanged; otherwise 201 with the response list and the document file replaced by the written PDF |
| DocumentViews.Site.SaveEntries | documents/views.py:165-203 | the loop's rows, next id, PDF and response are those of the save specification |
| DocumentViews.Site.SignDocument | documents/views.py:239-365 | each error answer (404, no pending fields, no image) changes nothing; otherwise the overlay is written to the temporary file; a missing field name gives 400 with no flag changed; on success exactly the pending rows are marked signed, the signed file is written, other rows and the original file are untouched, and the signed file's path is answered |
| DocumentViews.Site.StampAndSign | documents/views.py:259-365 | stamps, writes the temporary file and checks the names; marks exactly the pending rows only when every name exists |
| DocumentViews.Site.DeleteDocument | documents/views.py:77-95 | 404 for an unknown document and PermissionDenied for a non-owner, each changing nothing; the owner's delete removes the record, its fields and its file |
| DocumentViews.Site.DeleteAccount | documents/models.py:9-13 | deleting an account applies the cascade to documents and fields and keeps the database consistent; files stay |
| DocumentViews.Site.DocumentList | documents/views.py:68-69 | exactly the caller's own documents |
| DocumentViews.Site.ToSignList | documents/views.py:103-109 | exactly the documents with an unsigned field for the caller, each with its count, and each once |
| DocumentViews.Site.AssignPage | documents/views.py:115-116 | the document only for its owner, and 404 otherwise |
| DocumentViews.Site.SignPage | documents/views.py:220-228 | 404 iff the document is unknown; otherwise the id, x, y and page of each of the caller's pending fields |
| DocumentViews.Site.constructor | documents/models.py:8-35 | empty tables over the given accounts |
| Flatten.Store | common_core/dicts/flatten.py:12 | storing a key overwrites its value in place, or appends a new key; other keys are unchanged and keys stay unique |
| Flatten.LookupUpdated | common_core/dicts/flatten.py:12 | replacing a value changes the lookup of that key only |
| Flatten.FromItemsSingle | common_core/dicts/flatten.py:12 | dict of one item is that item |
| Flatten.FromItemsLastWins | common_core/dicts/flatten.py:12 | when two items share a key, the later one's value wins |
| Flatten.FromItemsContents | common_core/dicts/flatten.py:12 | dict(items) has exactly the items' keys, and each of its pairs is one of the items |
| Flatten.NewKey | common_core/dicts/flatten.py:4-7 | parent_key + separator + k when keep_parent is set and parent_key is non-empty; otherwise k |
| Flatten.Flattened | common_core/dicts/flatten.py:1-12 | the result's keys are unique |
| Flatten.FlattenDict | common_core/dicts/flatten.py:1-12 | the loop with its recursive call computes the flattening specification |
| Flatten.EntryItemsOf | common_core/dicts/flatten.py:8-11 | a leaf contributes one item under its new key; a nested dict contributes its own flattening |
| Flatten.FlattenStep | common_core/dicts/flatten.py:3-11 | one loop step extends the items by the entry's contribution |
| Flatten.FlattenItemsNoParent | common_core/dicts/flatten.py:5 | with an empty parent_key, keep_parent makes no difference |
| Flatten.TopLevelLeafKey | common_core/dicts/flatten.py:4-7 | a top-level leaf k appears under parent_key + separator + k when keep_parent is set and parent_key is non-empty, and under k otherwise |
| Flatten.TopLevelLeafFrom | common_core/dicts/flatten.py:11 | every leaf from a position on appears among the items |
| Flatten.NestedKeysUnprefixed | common_core/dicts/flatten.py:9 | a nested dict is flattened with an empty parent_key, so its keys carry no prefix |
| Flatten.FlattenedValuesAreLeaves | common_core/dicts/flatten.py:8-11 | every value in the result is a leaf of the input, never a dict |
| Flatten.NestedKeyCounterexample | common_core/dicts/flatten.py:9 | flattening {k: {k2: x}} gives key k2, not k + separator + k2 |
| Flatten.FlattenedIntended | common_core/dicts/flatten.py:1-12 | with the recursive call corrected, the result's keys are unique |
| Flatten.IntendedKeysPrefixed | common_core/dicts/flatten.py:5-9 | with the recursive call corrected, every key, nested ones included, starts with parent_key + separator |
| Flatten.IntendedNestedKey | common_core/dicts/flatten.py:9 | with the recursive call corrected, {k: {k2: x}} gives k + separator + k2 |
| Flatten.FlattenQueryValue | common_core/dicts/flatten.py:16 | a one-element list becomes its element; every other list, empty included, is kept |
| Flatten.FlattenQueryDict | common_core/dicts/flatten.py:15-16 | the key set is kept |
| Flatten.QueryDictRoundTrip | common_core/dicts/flatten.py:15-16 | each flattened value maps back to the original list |
| Scaffold.Slug | common_core/controllers/scaffold.py:28 | the text after the last '/', or the whole node if it has none |
| Scaffold.ReplaceChar | common_core/controllers/scaffold.py:32 | str.replace of one character: that character is replaced everywhere and the rest is kept |
| Scaffold.Upper | common_core/controllers/scaffold.py:32 | letters go to upper case; upper-case letters are kept |
| Scaffold.Lower | common_core/controllers/scaffold.py:32 | letters go to lower case; lower-case letters are kept |
| Scaffold.TitleAfterChars | common_core/controllers/scaffold.py:32 | the recursive title-casing agrees with the per-character definition |
| Scaffold.TitleSpec | common_core/controllers/scaffold.py:32 | str.title: each letter is upper-cased after a non-letter and lower-cased after a letter |
| Scaffold.TitleIdempotent | common_core/controllers/scaffold.py:32 | title-casing twice is title-casing once |
| Scaffold.PageTitle | common_core/controllers/scaffold.py:32-33 | "- " followed by the slug with '-' and '_' turned into spaces and title-cased: each character is the per-position str.title character of the spaced slug, and no '-' or '_' is left |
| Scaffold.TemplatePath | common_core/controllers/scaffold.py:29-31 | exactly node + infix + slug + suffix: that prefix, that suffix and their combined length |
| Scaffold.WithCsrf | common_core/controllers/scaffold.py:16-20 | csrf_token is written only when forcing is set and true, and otherwise the dict is kept |
| Scaffold.WithTemplates | common_core/controllers/scaffold.py:25-33 | an empty node leaves the dict as it was; otherwise exactly the template keys are added or overwritten |
| Scaffold.Scaffolded | common_core/controllers/scaffold.py:15-34 | the keys afterwards are the old keys plus base_url and site_url, plus csrf_token exactly when forcing is on with a token, plus the template keys exactly when the node is non-empty |
| Scaffold.ScaffoldedUrls | common_core/controllers/scaffold.py:22-23 | base_url and site_url are always written |
| Scaffold.ScaffoldedTemplates | common_core/controllers/scaffold.py:25-33 | for a non-empty node: tpl_base, tpl_node, tpl, tpl_js, tpl_css and the page title |
| Scaffold.ScaffoldedEmptyNode | common_core/controllers/scaffold.py:25 | an empty node leaves tpl*, tpl_base and page_title as they were in the shared dict |
| Scaffold.ScaffoldedCsrf | common_core/controllers/scaffold.py:16-20 | csrf_token is set to the token when forcing is on; otherwise it is left as it was, with no error |
| Scaffold.ScaffoldedKeepsOthers | common_core/controllers/scaffold.py:15-34 | every other key keeps its value |
| Scaffold.SharedContext.constructor | common_core/controllers/scaffold.py:6-8 | the class-level dict starts as {"page_title": ""} |
| Scaffold.ControllerScaffold.constructor | common_core/controllers/scaffold.py:10-13 | a controller refers to the shared dict and carries its attributes |
| Scaffold.ControllerScaffold.GetContextScaffold | common_core/controllers/scaffold.py:15-34 | the shared dict itself is returned, updated in place as the scaffold specification says |
| Scaffold.SharedAcrossControllers | common_core/controllers/scaffold.py:6-8 | a controller with an empty node reads back the template node another controller wrote |
| Messages.Exploded | common_core/generic/messages.py:1-11 | a str is exactly the opening div, the message verbatim, then `</div>`; an iterable is listed between the list opening and `</ul></div>`; raising gives '' |
| Messages.ItemsHtmlSnoc | common_core/generic/messages.py:6-7 | each item appends one `<li>` element |
| Messages.ExplodeMessages | common_core/generic/messages.py:1-11 | the accumulating loop computes the specification |
| Messages.ParseItemsRoundTrip | common_core/generic/messages.py:6-7 | items without '<' are read back from the `<li>` run, verbatim and in order |
| Messages.ExplodedRoundTrip | common_core/generic/messages.py:5-9 | the items can be read back from the whole list |
| Messages.ExplodedItemCount | common_core/generic/messages.py:6-7 | the number of `<li>` elements equals the number of items, and an empty iterable gives none |
| RandomString.GenerateRandomString | common_core/generic/random_string.py:6-13 | exactly `length` characters (none for length ≤ 0); digits with numbers_only, lower-case letters otherwise |
| Usernames.Prefix3 | accounts/utils/registration/usernames.py:5 | the first min(3, len) characters |
| Usernames.GenerateUsername | accounts/utils/registration/usernames.py:4-5 | first_name[:3] + last_name[:3] + `length` digits, the first name first |
| CrossAppApi.RequiredChecks | common_core/api/CrossAppAPIView.py:16-27 | the first falsy setting in the order id, key, model, serializer raises its own message; None iff all four are truthy |
| CrossAppApi.UnconfiguredFailsFirst | common_core/api/CrossAppAPIView.py:10-18 | with the class defaults the check fails with "App ID is required" |
| CrossAppApi.SourceUrlIgnored | common_core/api/CrossAppAPIView.py:16-27 | source_app_url plays no part |
| CrossAppApi.EmptyTextIsMissing | common_core/api/CrossAppAPIView.py:17-21 | '' counts as missing, the same as None |
| ThreadAware.AllByCurrentUser | common_core/managers/thread_aware.py:10-23 | [] with no user or without is_admin; everything for an admin; for others, the rows created by the user or by nobody; always a subset |
| ThreadAware.NonAdminKeepsOrder | common_core/managers/thread_aware.py:21 | a non-admin's result is the order-keeping filter on the creator |
| ThreadAware.SharedRowsVisible | common_core/managers/thread_aware.py:19-21 | rows with no creator are visible to every user with is_admin |
| Url.CallOverride | common_core/models/url.py:21-22 | an override returns its value or raises NotImplementedError, which propagates unchanged |
| Url.StripScheme | common_core/models/url.py:35-36 | a suffix of the URL |
| Url.StripNetloc | common_core/models/url.py:35-36 | a suffix of the rest |
| Url.UrlPath | common_core/models/url.py:35-36 | a suffix of the URL |
| Url.StripSchemeOf | common_core/models/url.py:35-36 | a valid scheme and its ':' are removed |
| Url.StripNetlocOf | common_core/models/url.py:35-36 | '//' and the network location are removed |
| Url.UrlPathRoundTrip | common_core/models/url.py:35-36 | scheme://netloc + path gives back path |
| Url.GetUrl | common_core/models/url.py:16-25 | NotImplementedError when get_url_path is the default, and no recursion; SITE_URL + p when get_url_path returns p; an override's own result otherwise |
| Url.GetUrlPath | common_core/models/url.py:27-38 | NotImplementedError when get_url is the default; otherwise get_url's URL without scheme and netloc, or an override's own result |
| Url.GetAbsoluteUrl | common_core/models/url.py:40-41 | always get_url's result |
| Url.PathThroughUrl | common_core/models/url.py:20-36 | with get_url_path overridden, the inherited get_url yields a URL whose path reads back as p |
| Url.NeitherOverridden | common_core/models/url.py:17-29 | with neither overridden, all three methods raise NotImplementedError |

## Left out

- PDF bytes and the pikepdf, pypdf and pyHanko libraries.
  - The PDF is modelled as an abstract value: a form field list plus per-page annotation lists.
  - The hybrid-xref rewrite and the pikepdf re-save on upload (documents/views.py:46-57) are left out. A failure of the re-save (lines 50-57) is only printed.
  - Incremental writing is left out.
  - `enumerate_sig_fields` is modelled as the list of signature-field names in the form.
  - The PKCS#12 loading and `PdfSigner.sign_pdf` step is an opaque success: the signed file is the checked writer's PDF.
- DocumentViews.Site.UploadDocument: models only the success path. `remove_hybrid_xrefs` (documents/views.py:46) runs outside the `try`. If it raises, the view answers 500 although the row and the file were already stored at line 42. The model has no such outcome.
- DocumentViews.Site.UploadDocument: the file is stored under the upload path verbatim. Django's file storage rewrites the last component of that path before saving: `get_valid_name` turns spaces into '_' and drops every character other than letters, digits, '-', '_' and '.', and `get_available_name` appends a random suffix when the name is taken. So "my contract (1).pdf" is stored as `documents/<owner>/my_contract_1.pdf`. The storage code is not part of this model.
- SignatureModels.SameUserSamePath: states what `upload_to` returns. The same storage renaming applies to a second signature image of one user while the first file exists, so the stored name can differ.
- DocumentViews.Overlay: models the page copy during signing (documents/views.py:259-296) as keeping the document's AcroForm, which is what signing needs. Whether pypdf's `PdfWriter().add_page` carries the AcroForm over is library behaviour that is not part of this model; the case where it does not is the finding below, with `OverlayDroppingForm`. The same assumption is made of the page-copy rewrite on upload (documents/utils.py).
- DocumentViews.Site.SignDocument: its success path, and that of `Site.StampAndSign`, uses `Overlay`, so it rests on that assumption. If the copy drops the AcroForm, every signing request with pending fields ends in 400 "Signature field '…' not found in the PDF" (`OverlayDroppingFormFails`); the methods do not have that outcome.
- DocumentViews.SaveStepPageMissing: pyHanko's page lookup in `append_signature_field` is not part of this model. It is taken to find a page for a zero-based index from `-n` to `n - 1` on an `n`-page PDF, negative indexes counting from the back, and to raise otherwise.
- If `append_signature_field` is given a name that is already in the PDF, pyHanko may raise on the duplicate. That behaviour is not modelled, because the library code is not part of this model.
- Pillow's `Image.open` is a foreign call. The image width and height are a parameter. A missing image or file on disk (documents/views.py:249-251) is modelled by passing None.
- Floats. x and y are integers.
  - Python's float formatting inside field names is replaced by an injective decimal rendering of the key.
  - `img / 3` is a real, and pypdf's `NumberObject` truncates it toward zero.
- DocumentViews.StampFor: the bounds on the rectangle's far corner are stated only for non-negative coordinates. For negative ones the truncation of x + w/3 rounds toward zero, not down.
- Filesystem effects (`os.replace`, `os.remove`, `os.path.exists`, `os.makedirs`) are modelled as updates of a map from media-relative names to PDFs.
  - Directory creation is not modelled.
- DocumentViews.Site.SaveSignatures: assumes the directory of the temporary file `MEDIA_ROOT/temp_<file name>` exists. The save view never creates it (documents/views.py:146, 206); only the sign view does (line 299).
  - Where that directory is missing, `open` raises at line 206 and the view answers 500.
  - The upserts of lines 172-185 are then kept and the PDF is unchanged.
  - The model instead answers 201 and replaces the file.
- An exception that escapes a view (a document file missing on disk) is answered 500 in the save and sign views.
- DocumentViews.Body: models a body that is not JSON, or a JSON object whose "signatures" value is absent or a list of entry objects. Other bodies give a 500 that the model cannot express:
  - JSON that is not an object, such as `[]` or `3`, raises AttributeError at `data.get` (documents/views.py:140);
  - a truthy "signatures" value that is not a list of objects, such as `"abc"` or `[1]`, raises at `field.get` (lines 165-167);
  - an entry value of the wrong type, such as a string "page", raises at `page - 1` (line 190), after its upsert.
- DocumentViews.Site.DeleteDocument: the catch-all fallback at documents/views.py:94-95 is not modelled as a separate path. The model removes the file entry when it is present, then the record.
- The guard "No valid signature fields found" (documents/views.py:326-327) cannot be reached: the pending list was checked to be non-empty at lines 245-246. It is not modelled as a separate branch.
- The user list on the assign page (documents/views.py:119-124) is rendering only, ordered by username, and is not modelled.
- A save does not check that the caller owns the document (documents/views.py:134). The model keeps this gap: any caller may save on any existing document.
- Rows upserted before an unknown assignee's 404 (documents/views.py:172) stay in the model's tables, as the code has no transaction around them. The PDF is not written in that case.
- `Document.signed` is never set by signing (documents/views.py:363), and the model keeps this. There is no field width or height, no aspect-ratio fitting and no completion code.
- The username pattern `USERNAME_REGEX` is not modelled, because the constants file that defines it is not part of this model. Django's email-format validation is not modelled either.
- Table rows are kept in primary-key order. Query ordering from `Meta.ordering` is left out.
- The thread-local lookup of the current user (common_core/managers/thread_aware.py:11) is left out. The current user is a parameter.
- Concurrent requests against one document are left out.
- The random-number generator and its reseeding from the clock (common_core/generic/random_string.py:7) are left out. Every pick is a nondeterministic choice from the alphabet.
- RandomString.GenerateRandomString: assumes an interpreter on which `random.seed` accepts a `datetime` (common_core/generic/random_string.py:7). Python 3.11 and later raise `TypeError` there. On those interpreters `generate_random_string` and `generate_username` always raise, which the model does not capture.
- Url.UrlPath: `urlunparse` normalisation is not modelled. That covers dropping an empty query or fragment delimiter, re-adding '//' before a path that starts with '//', and lower-casing the scheme. It also covers urlsplit stripping leading control and space characters, removing tab, CR and LF, and dropping an empty ';' params part. The model removes the scheme and the network location and keeps the rest verbatim.
- Scaffold.TitleSpec: `str.title` is modelled on ASCII letters. Other Unicode letters are treated as non-letters.
- The CSRF token's computation (`get_token` and `_unmask_cipher_token`) is a parameter. The forcing attribute is modelled as an option, where None means the attribute is absent.
- Messages.Exploded: each item is given by its `str()`. When iteration raises, the position does not matter, because the whole result is ''.
- Flatten: dictionary keys are strings. Keys of other types, and non-string `str()` formatting in f-strings, are not modelled.
- Scaffold, settings: `BASE_URL` and `SITE_URL` are parameters.

## Findings

| source | as written | input that shows it | evidently intended | confidence | as-written member | corrected member |
|---|---|---|---|---|---|---|
| documents/views.py:260-296 | the stamped pages are copied with `PdfWriter()` and `add_page`, which carries the pages over but not the catalog's /AcroForm; lines 312-316 then give the temporary file a new, empty /Fields array | a document whose form holds the caller's saved field `Signature_1_2_10_20_1`: the check at lines 335-337 reports that name missing and the view answers 400 | the copy keeps the form (for example `PdfWriter(clone_from=reader)`), so that the check passes exactly when every pending name was saved in the form | not executed; rests on pypdf's `add_page`, whose code is not part of this model | DocumentViews.OverlayDroppingFormFails | DocumentViews.OverlayKeepsFormPasses |
| common_core/dicts/flatten.py:9 | the recursive call passes new_key as the keep_parent argument, so the nested dict is flattened with parent_key '' and its keys lose their prefix | `flatten_dict({"a": {"b": 1}}, separator=".")` gives `{"b": 1}` | the nested keys are prefixed with the parent key, giving `{"a.b": 1}`: the call should pass keep_parent and new_key as the parent key | not executed | Flatten.NestedKeyCounterexample | Flatten.IntendedKeysPrefixed |
