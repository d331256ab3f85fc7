/** Names derived from the uploaded file name
    (pdfcomp/pdfcompressor/views.py:31 and 44). */
module Naming {

  /** The character `replace(" ", "_")` puts at one position. */
  function Sanitize(c: char): char {
    if c == ' ' then '_' else c
  }

  /** `pdf_file.name.replace(" ", "_")`: every space becomes an underscore
      and every other character stays where it was. */
  function SafeFilename(name: string): (r: string)
    ensures |r| == |name|
    ensures forall i :: 0 <= i < |name| ==> r[i] == (if name[i] == ' ' then '_' else name[i])
  {
    if name == [] then [] else [Sanitize(name[0])] + SafeFilename(name[1..])
  }

  const OUTPUT_PREFIX: string := "compressed_"

  /** `f"compressed_{safe_filename}"`. */
  function OutputFilename(safeName: string): (r: string)
    ensures |r| == |safeName| + 11
    ensures r[..11] == "compressed_" && r[11..] == safeName
  {
    OUTPUT_PREFIX + safeName
  }

  /** The sanitised name holds no space. */
  lemma SafeFilenameHasNoSpace(name: string)
    ensures ' ' !in SafeFilename(name)
  {
  }

  /** Sanitising a sanitised name changes nothing. */
  lemma SafeFilenameIdempotent(name: string)
    ensures SafeFilename(SafeFilename(name)) == SafeFilename(name)
  {
  }

  /** A name without spaces is stored under itself. */
  lemma SafeFilenameKeepsSpaceFree(name: string)
    requires ' ' !in name
    ensures SafeFilename(name) == name
  {
  }

  /** The output name of an upload is the prefix followed by the sanitised
      upload name, 11 characters longer than the upload name. */
  lemma OutputFilenameOfUpload(name: string)
    ensures |OutputFilename(SafeFilename(name))| == |name| + 11
    ensures OutputFilename(SafeFilename(name))[11..] == SafeFilename(name)
    ensures ' ' !in OutputFilename(SafeFilename(name))
  {
  }
}
