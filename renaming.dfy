/**
 * The rename collector. Each decrypted file, in listing order, has its
 * numbers extracted; when there is at least one, the file is copied into the
 * renamed folder under the first number plus ".pdf", replacing any file of
 * that name (last write wins); otherwise it is skipped.
 */
module Renaming {
  import opened Wrappers
  import opened Text
  import opened Naming
  import opened Extraction

  /** The renamed copy's name, when the file has a number to be renamed by. */
  function Target(d: Document): (t: Option<string>)
    ensures t.Some? <==> ExtractedTokens(d) != []
  {
    var nums := ExtractedTokens(d);
    if nums == [] then None else Some(nums[0] + ".pdf")
  }

  /**
   * The new name is the first extracted number plus ".pdf": a name the
   * `*.pdf` listing returns, whose stem is a digit run.
   */
  lemma TargetName(d: Document)
    requires Target(d).Some?
    ensures IsPdfName(Target(d).value)
    ensures Target(d).value[..|Target(d).value| - 4] == ExtractedTokens(d)[0]
    ensures IsNumeral(ExtractedTokens(d)[0])
  {
    NumeralPdfName(ExtractedTokens(d)[0]);
  }

  /** A digit run followed by ".pdf" is a listable PDF name whose stem is that run. */
  lemma NumeralPdfName(w: string)
    requires IsNumeral(w)
    ensures IsPdfName(w + ".pdf") && (w + ".pdf")[..|w|] == w
  {
    var t := w + ".pdf";
    assert t[..|w|] == w && t[|w|..] == ".pdf";
    forall i | 0 <= i < |t| ensures t[i] != '/' {
      if i < |w| { assert t[i] == w[i]; } else { assert t[i] == ".pdf"[i - |w|]; }
    }
  }

  /** The log lines for one decrypted file: an extraction error if any, then the rename or skip line. */
  function RenameMessages(name: string, d: Document): seq<string> {
    ExtractionMessages(name, d) + [RenameLine(name, d)]
  }

  /** The line logged once the file is renamed by its first number, or skipped. */
  function RenameLine(name: string, d: Document): (line: string)
    ensures ExtractedTokens(d) != [] ==> line == "Renamed and saved: " + (ExtractedTokens(d)[0] + ".pdf")
    ensures ExtractedTokens(d) == [] ==> line == "No numbers found in 15th line for " + name + " - skipping rename."
  {
    match Target(d)
    case Some(t) => "Renamed and saved: " + t
    case None => "No numbers found in 15th line for " + name + " - skipping rename."
  }

  /**
   * The renamed folder after one file: a file with a number is stored under
   * its first number plus ".pdf", overwriting any entry of that name; a file
   * without one changes nothing.
   */
  function RenameFile(store: map<string, Document>, d: Document): (r: map<string, Document>)
    ensures ExtractedTokens(d) == [] ==> r == store
    ensures ExtractedTokens(d) != [] ==> r == store[ExtractedTokens(d)[0] + ".pdf" := d]
  {
    match Target(d)
    case Some(t) => store[t := d]
    case None => store
  }

  predicate AllListed(folder: map<string, Document>, names: seq<string>) {
    forall i :: 0 <= i < |names| ==> names[i] in folder
  }

  /** The `*.pdf` listing of the decrypted folder: every file in it, each once, in some order. */
  predicate Enumerates(folder: map<string, Document>, names: seq<string>) {
    && AllListed(folder, names)
    && (forall i, j :: 0 <= i < j < |names| ==> names[i] != names[j])
    && (forall k :: k in folder ==> k in names)
  }

  /** The renamed folder after the decrypted files `names`, taken in that order. */
  function RenameAll(store: map<string, Document>, folder: map<string, Document>, names: seq<string>): map<string, Document>
    requires AllListed(folder, names)
  {
    if names == [] then store
    else RenameFile(RenameAll(store, folder, names[..|names| - 1]), folder[names[|names| - 1]])
  }

  /** The log lines of the rename loop. */
  function RenameLog(folder: map<string, Document>, names: seq<string>): seq<string>
    requires AllListed(folder, names)
  {
    if names == [] then []
    else RenameLog(folder, names[..|names| - 1]) + RenameMessages(names[|names| - 1], folder[names[|names| - 1]])
  }

  /** One more file of the rename loop extends the folder and the log by that file's share. */
  lemma RenameStep(store: map<string, Document>, folder: map<string, Document>, names: seq<string>, k: nat)
    requires AllListed(folder, names) && k < |names|
    ensures AllListed(folder, names[..k]) && AllListed(folder, names[..k + 1])
    ensures RenameAll(store, folder, names[..k + 1]) == RenameFile(RenameAll(store, folder, names[..k]), folder[names[k]])
    ensures RenameLog(folder, names[..k + 1]) == RenameLog(folder, names[..k]) + RenameMessages(names[k], folder[names[k]])
  {
    var next := names[..k + 1];
    assert next[..k] == names[..k] && next[k] == names[k];
  }

  // ---------------------------------------------------------------------------

  /**
   * Last write wins: the entry under `k` holds the last listed file whose
   * name is `k`, whatever earlier files wrote there.
   */
  lemma {:induction false} LastWriteWins(store: map<string, Document>, folder: map<string, Document>,
                                         names: seq<string>, i: nat, k: string)
    requires AllListed(folder, names)
    requires i < |names| && Target(folder[names[i]]) == Some(k)
    requires forall j :: i < j < |names| ==> Target(folder[names[j]]) != Some(k)
    ensures k in RenameAll(store, folder, names)
    ensures RenameAll(store, folder, names)[k] == folder[names[i]]
  {
    var init := names[..|names| - 1];
    if i < |names| - 1 {
      forall j | i < j < |init| ensures Target(folder[init[j]]) != Some(k) {
        assert init[j] == names[j];
      }
      assert init[i] == names[i];
      LastWriteWins(store, folder, init, i, k);
    }
  }

  /**
   * A listed file with a number leaves an entry under its new name, holding
   * that file or a file listed after it with the same new name.
   */
  lemma {:induction false} TargetedStored(store: map<string, Document>, folder: map<string, Document>,
                                          names: seq<string>, i: nat, k: string)
    requires AllListed(folder, names)
    requires i < |names| && Target(folder[names[i]]) == Some(k)
    ensures k in RenameAll(store, folder, names)
    ensures exists j :: i <= j < |names| && Target(folder[names[j]]) == Some(k)
                        && RenameAll(store, folder, names)[k] == folder[names[j]]
  {
    var n := |names| - 1;
    var init := names[..n];
    var before := RenameAll(store, folder, init);
    var last := folder[names[n]];
    assert RenameAll(store, folder, names) == RenameFile(before, last);
    if Target(last) == Some(k) {
      RenameFileAt(before, last, k);
    } else {
      assert init[i] == names[i];
      RenameFileElsewhere(before, last, k);
      TargetedStored(store, folder, init, i, k);
      var j :| i <= j < |init| && Target(folder[init[j]]) == Some(k) && before[k] == folder[init[j]];
      assert init[j] == names[j];
    }
  }

  /** A name no listed file is renamed to keeps whatever the folder held under it. */
  lemma {:induction false} UntargetedKept(store: map<string, Document>, folder: map<string, Document>,
                                          names: seq<string>, k: string)
    requires AllListed(folder, names)
    requires forall j :: 0 <= j < |names| ==> Target(folder[names[j]]) != Some(k)
    ensures k in RenameAll(store, folder, names) <==> k in store
    ensures k in store ==> RenameAll(store, folder, names)[k] == store[k]
  {
    if names != [] {
      var init := names[..|names| - 1];
      forall j | 0 <= j < |init| ensures Target(folder[init[j]]) != Some(k) {
        assert init[j] == names[j];
      }
      UntargetedKept(store, folder, init, k);
    }
  }

  /** Two files with the same identifier leave one entry, holding the later file. */
  lemma Collision(store: map<string, Document>, folder: map<string, Document>, a: string, b: string, k: string)
    requires a in folder && b in folder
    requires Target(folder[a]) == Some(k) && Target(folder[b]) == Some(k)
    ensures RenameAll(store, folder, [a, b]) == store[k := folder[b]]
  {
    RenamePair(store, folder, a, b);
    Overwrite(store, folder[a], folder[b], k);
  }

  /** Renaming two documents to the same name keeps the second. */
  lemma Overwrite(store: map<string, Document>, d1: Document, d2: Document, k: string)
    requires Target(d1) == Some(k) && Target(d2) == Some(k)
    ensures RenameFile(RenameFile(store, d1), d2) == store[k := d2]
  {
    RenameFileAt(store, d1, k);
    RenameFileAt(store[k := d1], d2, k);
  }

  lemma RenameFileAt(store: map<string, Document>, d: Document, k: string)
    requires Target(d) == Some(k)
    ensures RenameFile(store, d) == store[k := d]
  {
  }

  /** A file renamed to another name leaves the entry under `k` as it was. */
  lemma RenameFileElsewhere(store: map<string, Document>, d: Document, k: string)
    requires Target(d) != Some(k)
    ensures k in RenameFile(store, d) <==> k in store
    ensures k in store ==> RenameFile(store, d)[k] == store[k]
  {
  }

  /** The rename loop over two files. */
  lemma RenamePair(store: map<string, Document>, folder: map<string, Document>, a: string, b: string)
    requires a in folder && b in folder
    ensures RenameAll(store, folder, [a, b]) == RenameFile(RenameFile(store, folder[a]), folder[b])
  {
    assert [a, b][..1] == [a] && [a][..0] == [];
    assert RenameAll(store, folder, [a]) == RenameFile(store, folder[a]);
  }

  /**
   * A file whose pages all have fewer than 15 lines is skipped: the renamed
   * folder is unchanged and the last line logged for it is the skip line.
   */
  lemma ShortDocumentSkipped(store: map<string, Document>, name: string, d: Document)
    requires forall i :: 0 <= i < |d.pages| ==> Count('\n', d.pages[i]) < LineIndex
    ensures RenameFile(store, d) == store
    ensures RenameMessages(name, d)[|RenameMessages(name, d)| - 1]
            == "No numbers found in 15th line for " + name + " - skipping rename."
  {
    ShortDocumentNoTokens(d);
  }

  /**
   * A failure after the first number was found does not change the new name:
   * the file is renamed as if its extraction had completed.
   */
  lemma LateFaultKeepsTarget(d: Document)
    requires ExtractedTokens(d) != []
    ensures Target(d) == Target(Document(d.pages, None))
  {
    PartialExtraction(d);
    PartialExtraction(Document(d.pages, None));
  }

  /**
   * The example layout: a document whose first page has 16 lines, line index
   * 14 reading "INV 12345 REF 67", is renamed to "12345.pdf".
   */
  lemma InvoiceDocumentTarget(lines: seq<string>, rest: seq<string>)
    requires |lines| == 16
    requires forall i :: 0 <= i < 16 ==> '\n' !in lines[i]
    requires lines[LineIndex] == "INV 12345 REF 67"
    ensures Target(Document([JoinLines(lines)] + rest, None)) == Some("12345.pdf")
  {
    assert "12345" + ".pdf" == "12345.pdf";
    var pages := [JoinLines(lines)] + rest;
    assert pages[0] == JoinLines(lines);
    InvoiceLineExample(lines);
    FirstDocumentToken(pages, 0);
    var d := Document(pages, None);
    assert PagesRead(d) == |pages| && pages[..|pages|] == pages;
    assert ExtractedTokens(d)[0] == "12345";
  }
}
