/**
 * The reference normalisation at the start of `ImagePullEx`: a reference
 * without any ':' gets the default tag appended before the pull.
 */
module Pull {

  /** The tag appended to a reference that has none. */
  const DefaultTag: string := ":latest"

  /** The reference handed to the pull: a reference containing ':' anywhere is
      kept; any other gets ":latest" appended. The result always contains ':'
      and always starts with the given reference. */
  function NormalizeRef(ref: string): (r: string)
    ensures ':' in r
    ensures ref <= r
    ensures ':' in ref ==> r == ref
    ensures ':' !in ref ==> r[|ref|..] == DefaultTag
  {
    if ':' in ref then ref else ref + DefaultTag
  }

  /** Normalising twice is normalising once. */
  lemma NormalizeRefIdempotent(ref: string)
    ensures NormalizeRef(NormalizeRef(ref)) == NormalizeRef(ref)
  {
  }

  /** "alpine" is pulled as "alpine:latest"; "alpine:3.19" as itself. */
  lemma NormalizeRefExamples()
    ensures NormalizeRef("alpine") == "alpine:latest"
    ensures NormalizeRef("alpine:3.19") == "alpine:3.19"
  {
  }

  /** Any ':' counts, so a registry port suppresses the default tag: a
      reference naming a registry with a port and no tag is passed on as is. */
  lemma RegistryPortCountsAsTag()
    ensures NormalizeRef("localhost:5000/busybox") == "localhost:5000/busybox"
  {
  }
}
