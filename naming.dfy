/**
 * File naming: the stem that `os.path.splitext` leaves of a base name, the
 * output name `stem + ".pdf"`, and the base names that the `*.pdf` folder
 * listing can return.
 */
module Naming {

  /** `name.rfind('.')`: the index of the last dot, or -1. */
  function LastDot(name: string): (d: int)
    ensures -1 <= d < |name|
    ensures d >= 0 ==> name[d] == '.'
    ensures forall i :: d < i < |name| ==> name[i] != '.'
  {
    if name == [] then -1
    else if name[|name| - 1] == '.' then |name| - 1
    else LastDot(name[..|name| - 1])
  }

  /**
   * `os.path.splitext(name)` for a base name: the extension starts at the
   * last dot, unless everything before that dot is dots (a hidden-file name
   * such as ".profile" has no extension).
   */
  function SplitExt(name: string): (r: (string, string))
    ensures r.0 + r.1 == name
    ensures r.1 == [] || (r.1[0] == '.' && forall i :: 1 <= i < |r.1| ==> r.1[i] != '.')
    ensures r.1 != [] <==> LastDot(name) >= 0 && exists i :: 0 <= i < LastDot(name) && name[i] != '.'
    ensures r.1 != [] ==> |r.0| == LastDot(name)
  {
    var d := LastDot(name);
    if d >= 0 && exists i :: 0 <= i < d && name[i] != '.' then
      assert name[..d] + name[d..] == name;
      (name[..d], name[d..])
    else (name, "")
  }

  function Stem(name: string): string {
    SplitExt(name).0
  }

  /** The decrypted copy's name: the stem of the input name plus ".pdf". */
  function OutputName(name: string): (r: string)
    ensures |r| >= 4 && r[|r| - 4..] == ".pdf"
  {
    Stem(name) + ".pdf"
  }

  /** A base name the listing `*.pdf` returns: no hidden name, no directory part, ".pdf" ending. */
  predicate IsPdfName(name: string) {
    && |name| > 4
    && name[|name| - 4..] == ".pdf"
    && name[0] != '.'
    && '/' !in name
  }

  /** For a listed name the output name is the input name: the copy keeps its name. */
  lemma OutputNameOfPdfName(name: string)
    requires IsPdfName(name)
    ensures Stem(name) == name[..|name| - 4]
    ensures OutputName(name) == name
  {
    var d := |name| - 4;
    assert name[d] == '.';
    assert LastDot(name) == d;
    assert name[0] != '.';
    assert name[..d] + name[d..] == name;
  }
}
