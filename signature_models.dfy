/** The Signature model (signatures/models.py): one stored signature image
    per user, its upload path and its full path. */
module SignatureModels {
  import opened Wrappers
  import opened Text

  /** A signature row: the owning account's key and the stored image name
      (the empty name stands for an image field with no file). */
  datatype Signature = Signature(user: nat, image: string)

  const SignaturesDir := "signatures/"
  const SignatureSuffix := "_signature.png"

  /** signature_upload_path: signatures/<username>_signature.png; the uploaded
      file's own name plays no part. */
  function SignatureUploadPath(username: string, filename: string): (r: string)
    ensures StartsWith(r, SignaturesDir) && EndsWith(r, SignatureSuffix)
    ensures |r| == |SignaturesDir| + |username| + |SignatureSuffix|
    ensures r[|SignaturesDir|..|r| - |SignatureSuffix|] == username
  {
    SignaturesDir + username + SignatureSuffix
  }

  /** Two uploads by the same user go to the same path, whatever the files are called. */
  lemma SameUserSamePath(username: string, f1: string, f2: string)
    ensures SignatureUploadPath(username, f1) == SignatureUploadPath(username, f2)
  {
  }

  /** Different users never share a path. */
  lemma DistinctUsersDistinctPaths(u1: string, u2: string, f1: string, f2: string)
    requires u1 != u2
    ensures SignatureUploadPath(u1, f1) != SignatureUploadPath(u2, f2)
  {
  }

  /** signature_path: MEDIA_ROOT joined with the image name when an image is
      set, otherwise None. */
  function SignaturePath(mediaRoot: string, s: Signature): (r: Option<string>)
    ensures r.None? <==> s.image == ""
    ensures r.Some? ==> r.value == Join(mediaRoot, s.image)
  {
    if s.image != "" then Some(Join(mediaRoot, s.image)) else None
  }

  /** The one-to-one rule: no two rows belong to the same user. */
  predicate OnePerUser(t: seq<Signature>)
  {
    forall i, j :: 0 <= i < j < |t| ==> t[i].user != t[j].user
  }

  /** The signature of a user, if the table has one. */
  function SignatureOf(t: seq<Signature>, user: nat): (r: Option<Signature>)
    ensures r.Some? ==> r.value in t && r.value.user == user
    ensures r.None? ==> forall i :: 0 <= i < |t| ==> t[i].user != user
  {
    if t == [] then None
    else if t[0].user == user then Some(t[0])
    else SignatureOf(t[1..], user)
  }

  /** Inserting a row: the unique index on user refuses a second signature for the same user. */
  function InsertSignature(t: seq<Signature>, s: Signature): (r: Option<seq<Signature>>)
    ensures r.Some? <==> forall i :: 0 <= i < |t| ==> t[i].user != s.user
    ensures r.Some? ==> r.value == t + [s]
    ensures r.Some? && OnePerUser(t) ==> OnePerUser(r.value)
  {
    if SignatureOf(t, s.user).Some? then None else Some(t + [s])
  }
}
