/**
 * The download name chosen by src/components/bom/BomExporter.tsx: the
 * uploaded file's name with its extension removed and "-extended" appended,
 * or a dated default when no file name is known.
 */
module ExportFilename {
  import opened Utils

  /** Index of the last '.' in `s`, if there is one. */
  function LastDot(s: string): (r: Option<nat>)
    ensures r.Some? ==> r.value < |s| && s[r.value] == '.' && forall k | r.value < k < |s| :: s[k] != '.'
    ensures r.None? ==> forall k | 0 <= k < |s| :: s[k] != '.'
  {
    if s == [] then None
    else if s[|s| - 1] == '.' then Some(|s| - 1)
    else
      var r := LastDot(s[..|s| - 1]);
      assert forall k | 0 <= k < |s| - 1 :: s[..|s| - 1][k] == s[k];
      r
  }

  /**
   * The pattern `\.[^/.]+$` matches at position `i`: a dot, then one or more
   * characters none of which is '/' or '.', up to the end of the name.
   */
  predicate ExtensionAt(s: string, i: nat)
  {
    i + 1 < |s| && s[i] == '.' && forall k | i < k < |s| :: s[k] != '/' && s[k] != '.'
  }

  /** Where the extension starts: only the last dot can begin a match. */
  function ExtensionStart(s: string): (r: Option<nat>)
    ensures r.Some? ==> ExtensionAt(s, r.value)
    ensures r.None? ==> forall i: nat :: !ExtensionAt(s, i)
    ensures forall i: nat, j: nat | ExtensionAt(s, i) && ExtensionAt(s, j) :: i == j
  {
    match LastDot(s)
    case None => None
    case Some(d) => if ExtensionAt(s, d) then Some(d) else None
  }

  /** `name.replace(/\.[^/.]+$/, '')`: the extension, when the pattern matches, is cut off. */
  function StripExtension(name: string): (r: string)
    ensures forall i: nat | ExtensionAt(name, i) :: r == name[..i]
    ensures (forall i: nat :: !ExtensionAt(name, i)) ==> r == name
    ensures r <= name
  {
    match ExtensionStart(name)
    case None => name
    case Some(i) => name[..i]
  }

  /**
   * `getExportFilename`: the stored name without extension plus "-extended",
   * or "bom-extended-" and the date part (the first ten characters) of the
   * current ISO timestamp `isoNow` when no non-empty name is stored.
   */
  function GetExportFilename(originalFilename: Option<string>, isoNow: string): (r: string)
    ensures originalFilename.Some? && originalFilename.value != [] ==>
              r == StripExtension(originalFilename.value) + "-extended"
    ensures originalFilename.Some? && originalFilename.value != [] ==>
              exists stem :: stem <= originalFilename.value && r == stem + "-extended"
    ensures (originalFilename.None? || originalFilename.value == []) ==>
              r == "bom-extended-" + isoNow[..Min(10, |isoNow|)]
  {
    if originalFilename.Some? && originalFilename.value != "" then
      var stem := StripExtension(originalFilename.value);
      assert stem <= originalFilename.value;
      stem + "-extended"
    else "bom-extended-" + isoNow[..Min(10, |isoNow|)]
  }

  /** Only the final extension goes; a dot inside a directory-like part or at the very end stays. */
  lemma StripExtensionExamples()
    ensures StripExtension("a.tar.gz") == "a.tar"
    ensures StripExtension("pasted-bom.csv") == "pasted-bom"
    ensures StripExtension("notes") == "notes"
    ensures StripExtension("trail.") == "trail."
    ensures StripExtension("dir.v1/file") == "dir.v1/file"
  {
    var a := "a.tar.gz";
    assert ExtensionAt(a, 5);
    var p := "pasted-bom.csv";
    assert ExtensionAt(p, 10);
    var n := "notes";
    assert forall k | 0 <= k < |n| :: n[k] != '.';
    var t := "trail.";
    assert LastDot(t) == Some(5);
    var d := "dir.v1/file";
    assert forall k | 0 <= k < |d| && d[k] == '.' :: k == 3;
    assert d[6] == '/';
    assert !ExtensionAt(d, 3);
  }

  /** A pasted list is stored as "pasted-bom.csv" and exported as "pasted-bom-extended". */
  lemma PastedExportName(isoNow: string)
    ensures GetExportFilename(Some("pasted-bom.csv"), isoNow) == "pasted-bom-extended"
  {
    StripExtensionExamples();
    var p := "pasted-bom.csv";
    assert StripExtension(p) == "pasted-bom";
    assert GetExportFilename(Some(p), isoNow) == StripExtension(p) + "-extended";
  }

  /** Without a stored name the export is named after the day of `isoNow`. */
  lemma DatedExportName()
    ensures GetExportFilename(None, "2026-10-15T08:30:00.000Z") == "bom-extended-2026-10-15"
  {
    var now := "2026-10-15T08:30:00.000Z";
    assert now[..10] == "2026-10-15";
  }
}
