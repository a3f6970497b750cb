/** Choosing the storage backend from the `-data` specifier given at startup. */
module Data {
  import opened Wrappers

  /** The two kinds of backend the source has. */
  datatype Storage = FolderStorage(dir: string) | S3Storage(bucket: string)

  /** The folder backend's start-up self-test (create the folder, write and
      delete a temporary file): `None` when it passes, else the failure. A
      folder in which no temporary file can be created makes the source
      panic rather than return an error; here that panic is one more failure. */
  type FolderSelfTest = string -> Option<string>

  const NotImplemented := "s3 storage not yet implemented"

  /** `t` occurs in `s` starting at index `i`. */
  predicate OccursAt(s: string, t: string, i: nat) {
    i + |t| <= |s| && s[i..i + |t|] == t
  }

  /** `strings.Contains`, as a left-to-right search for the first occurrence
      at or after `from`. */
  function IndexFrom(s: string, t: string, from: nat): (k: Option<nat>)
    ensures k.Some? ==> from <= k.value && OccursAt(s, t, k.value)
    ensures k.Some? ==> forall j :: from <= j < k.value ==> !OccursAt(s, t, j)
    ensures k.None? ==> forall i :: from <= i ==> !OccursAt(s, t, i)
    decreases |s| - from
  {
    if from + |t| > |s| then None
    else if s[from..from + |t|] == t then Some(from)
    else IndexFrom(s, t, from + 1)
  }

  function Contains(s: string, t: string): (b: bool)
    ensures b <==> exists i :: OccursAt(s, t, i)
  {
    IndexFrom(s, t, 0).Some?
  }

  /** `NewStorage`: a specifier with `https://` anywhere in it is refused
      before any backend is built; any other is handed, unchanged, to the
      folder backend, which exists once its self-test passes. */
  function NewStorage(selfTest: FolderSelfTest, spec: string): (r: Result<Storage, string>)
    ensures Contains(spec, "https://") ==> r == Err(NotImplemented)
    ensures !Contains(spec, "https://") ==> (r.Ok? <==> selfTest(spec).None?)
    ensures !Contains(spec, "https://") && r.Err? ==> r.error == selfTest(spec).value
    ensures r.Ok? ==> r.value == FolderStorage(spec)
  {
    if Contains(spec, "https://") then Err(NotImplemented)
    else
      match selfTest(spec)
      case Some(e) => Err(e)
      case None => Ok(FolderStorage(spec))
  }

  /** The object-store backend is never chosen. */
  lemma NeverS3(selfTest: FolderSelfTest, spec: string)
    ensures !(NewStorage(selfTest, spec).Ok? && NewStorage(selfTest, spec).value.S3Storage?)
  {
  }

  /** No `file:` prefix is stripped: the whole specifier is the folder path. */
  lemma FilePrefixKept(selfTest: FolderSelfTest)
    requires selfTest("file:/x").None?
    ensures NewStorage(selfTest, "file:/x") == Ok(FolderStorage("file:/x"))
  {
    assert !Contains("file:/x", "https://") by {
      forall i: nat ensures !OccursAt("file:/x", "https://", i) {
      }
    }
  }

  /** `https://` is refused wherever it occurs, not only as a prefix. */
  lemma HttpsInsideRefused(selfTest: FolderSelfTest)
    ensures NewStorage(selfTest, "s3:https://bucket") == Err(NotImplemented)
  {
    assert OccursAt("s3:https://bucket", "https://", 3);
  }
}
