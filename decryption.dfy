/**
 * Trial decryption. Each listed file is opened; an encrypted one is tried
 * against the candidate passwords in list order, and the first password the
 * PDF library accepts ends the search and writes the decrypted copy under
 * the file's stem plus ".pdf". Each file logs exactly one outcome line, and
 * an exception is confined to the file that raised it.
 */
module Decryption {
  import opened Wrappers
  import opened Naming
  import opened Extraction

  /** What one call `decrypt(password)` of the PDF library does. */
  datatype Trial = Accepted | Rejected | Raised(msg: string)

  /**
   * A listed input file: its base name; the exception message when opening
   * it (or asking whether it is encrypted) fails; its encryption flag; the
   * library's answer to each password; and its content once decrypted.
   */
  datatype SourcePdf = SourcePdf(
    name: string,
    readError: Option<string>,
    encrypted: bool,
    trial: string -> Trial,
    content: Document)

  /** Result of trying the passwords in order. */
  datatype Search = Found(index: nat) | Exhausted | Crashed(index: nat, msg: string)

  /**
   * The password loop: the first password that is not rejected decides.
   * `Found(i)` and `Crashed(i, _)` mean every password before index `i` was
   * rejected; `Exhausted` means every password was.
   */
  function SearchPasswords(pwds: seq<string>, trial: string -> Trial): (r: Search)
    ensures r.Found? ==> r.index < |pwds| && trial(pwds[r.index]) == Accepted
    ensures r.Crashed? ==> r.index < |pwds| && trial(pwds[r.index]) == Raised(r.msg)
    ensures (r.Found? || r.Crashed?) ==> forall j :: 0 <= j < r.index ==> trial(pwds[j]) == Rejected
    ensures r.Exhausted? <==> forall j :: 0 <= j < |pwds| ==> trial(pwds[j]) == Rejected
  {
    if pwds == [] then Exhausted
    else
      match trial(pwds[0])
      case Accepted => Found(0)
      case Raised(msg) => Crashed(0, msg)
      case Rejected =>
        match SearchPasswords(pwds[1..], trial)
        case Found(i) => Found(i + 1)
        case Crashed(i, msg) => Crashed(i + 1, msg)
        case Exhausted => Exhausted
  }

  /** The outcome of one file of the decrypt loop. */
  datatype Outcome = Saved(fileName: string) | Failed | NotEncrypted | Error(msg: string)

  /**
   * The outcome of one file: an unreadable file is an error, an unencrypted
   * one is not decrypted, an encrypted one fails exactly when every password
   * is rejected, a saved copy takes the output name, and any other error is
   * the exception raised by the deciding trial.
   */
  function Decrypt(f: SourcePdf, pwds: seq<string>): (r: Outcome)
    ensures f.readError.Some? ==> r == Error(f.readError.value)
    ensures r == NotEncrypted <==> f.readError.None? && !f.encrypted
    ensures r.Failed? <==> f.readError.None? && f.encrypted && SearchPasswords(pwds, f.trial).Exhausted?
    ensures r.Saved? <==> f.readError.None? && f.encrypted && SearchPasswords(pwds, f.trial).Found?
    ensures r.Saved? ==> r.fileName == OutputName(f.name)
    ensures r.Error? && f.readError.None? ==>
              f.encrypted && SearchPasswords(pwds, f.trial).Crashed? && r.msg == SearchPasswords(pwds, f.trial).msg
  {
    if f.readError.Some? then Error(f.readError.value)
    else if !f.encrypted then NotEncrypted
    else
      match SearchPasswords(pwds, f.trial)
      case Found(_) => Saved(OutputName(f.name))
      case Exhausted => Failed
      case Crashed(_, msg) => Error(msg)
  }

  /**
   * The passwords the library is asked about for this file, in the order
   * asked: none for an unreadable or unencrypted file, and, when the file is
   * saved, the accepted password last.
   */
  function Consulted(f: SourcePdf, pwds: seq<string>): (r: seq<string>)
    ensures |r| <= |pwds|
    ensures r == [] <==> f.readError.Some? || !f.encrypted || pwds == []
    ensures Decrypt(f, pwds).Saved? ==> r != [] && f.trial(r[|r| - 1]) == Accepted
  {
    if f.readError.Some? || !f.encrypted then []
    else
      match SearchPasswords(pwds, f.trial)
      case Found(i) => pwds[..i + 1]
      case Crashed(i, _) => pwds[..i + 1]
      case Exhausted => pwds
  }

  /** The one log line the decrypt loop writes for a file. */
  function DecryptMessage(f: SourcePdf, pwds: seq<string>): (m: string)
    ensures f.readError.Some? ==> m == "Error decrypting " + f.name + ": " + f.readError.value
    ensures f.readError.None? && !f.encrypted ==> m == "PDF not encrypted: " + f.name
    ensures Decrypt(f, pwds).Saved? ==> m == "Decrypted and saved: " + OutputName(f.name)
  {
    match Decrypt(f, pwds)
    case Saved(fileName) => "Decrypted and saved: " + fileName
    case Failed => "Failed to decrypt: " + f.name
    case NotEncrypted => "PDF not encrypted: " + f.name
    case Error(msg) => "Error decrypting " + f.name + ": " + msg
  }

  /**
   * The decrypted folder after processing one file: nothing is removed, a
   * success stores the content under the output name, and any other outcome
   * leaves the folder as it was.
   */
  function SaveFile(folder: map<string, Document>, f: SourcePdf, pwds: seq<string>): (r: map<string, Document>)
    ensures Decrypt(f, pwds).Saved? ==> OutputName(f.name) in r && r[OutputName(f.name)] == f.content
    ensures !Decrypt(f, pwds).Saved? ==> r == folder
  {
    if Decrypt(f, pwds).Saved? then folder[OutputName(f.name) := f.content] else folder
  }

  /** The decrypted folder after processing the files in listing order. */
  function SaveAll(folder: map<string, Document>, files: seq<SourcePdf>, pwds: seq<string>): map<string, Document> {
    if files == [] then folder
    else SaveFile(SaveAll(folder, files[..|files| - 1], pwds), files[|files| - 1], pwds)
  }

  /** The log lines of the decrypt loop, file after file. */
  function DecryptLog(files: seq<SourcePdf>, pwds: seq<string>): seq<string> {
    if files == [] then []
    else DecryptLog(files[..|files| - 1], pwds) + [DecryptMessage(files[|files| - 1], pwds)]
  }

  /** The passwords asked about during the whole decrypt loop. */
  function ConsultedAll(files: seq<SourcePdf>, pwds: seq<string>): seq<string> {
    if files == [] then []
    else ConsultedAll(files[..|files| - 1], pwds) + Consulted(files[|files| - 1], pwds)
  }

  // ---------------------------------------------------------------------------
  // Properties of one file

  /**
   * Passwords are asked about strictly in list order, each at most once,
   * and every one asked about except the last was rejected.
   */
  lemma ConsultedInOrder(f: SourcePdf, pwds: seq<string>)
    ensures |Consulted(f, pwds)| <= |pwds|
    ensures Consulted(f, pwds) == pwds[..|Consulted(f, pwds)|]
    ensures forall j :: 0 <= j < |Consulted(f, pwds)| - 1 ==> f.trial(pwds[j]) == Rejected
  {
    assert pwds[..|pwds|] == pwds;
  }

  /**
   * First match wins: when password `i` is the first one accepted, the file is
   * saved under its output name, password `i` is the last one asked about,
   * and no later password is tried.
   */
  lemma FirstMatchWins(f: SourcePdf, pwds: seq<string>, i: nat, folder: map<string, Document>)
    requires f.readError.None? && f.encrypted
    requires i < |pwds| && f.trial(pwds[i]) == Accepted
    requires forall j :: 0 <= j < i ==> f.trial(pwds[j]) == Rejected
    ensures SearchPasswords(pwds, f.trial) == Found(i)
    ensures Decrypt(f, pwds) == Saved(OutputName(f.name))
    ensures Consulted(f, pwds) == pwds[..i + 1]
    ensures DecryptMessage(f, pwds) == "Decrypted and saved: " + OutputName(f.name)
    ensures SaveFile(folder, f, pwds) == folder[OutputName(f.name) := f.content]
  {
    SearchFindsFirst(pwds, f.trial, i);
    var out := OutputName(f.name);
    assert Decrypt(f, pwds) == Saved(out);
    assert SaveFile(folder, f, pwds) == folder[out := f.content];
  }

  /**
   * A trial that raises ends the search: when password `i` is the first one
   * not rejected and asking about it raises, the file's outcome is an error
   * carrying that exception's message, passwords 0..i are the ones asked
   * about, the error line is logged and nothing is written.
   */
  lemma TrialRaises(f: SourcePdf, pwds: seq<string>, i: nat, folder: map<string, Document>)
    requires f.readError.None? && f.encrypted
    requires i < |pwds| && f.trial(pwds[i]).Raised?
    requires forall j :: 0 <= j < i ==> f.trial(pwds[j]) == Rejected
    ensures Decrypt(f, pwds) == Error(f.trial(pwds[i]).msg)
    ensures Consulted(f, pwds) == pwds[..i + 1]
    ensures DecryptMessage(f, pwds) == "Error decrypting " + f.name + ": " + f.trial(pwds[i]).msg
    ensures SaveFile(folder, f, pwds) == folder
  {
    SearchFindsFirst(pwds, f.trial, i);
  }

  /** The search result is determined by the first password that is not rejected. */
  lemma SearchFindsFirst(pwds: seq<string>, trial: string -> Trial, i: nat)
    requires i < |pwds| && trial(pwds[i]) != Rejected
    requires forall j :: 0 <= j < i ==> trial(pwds[j]) == Rejected
    ensures trial(pwds[i]) == Accepted ==> SearchPasswords(pwds, trial) == Found(i)
    ensures trial(pwds[i]).Raised? ==> SearchPasswords(pwds, trial) == Crashed(i, trial(pwds[i]).msg)
  {
  }

  /**
   * Exhaustion: when every password is rejected, each is asked about exactly
   * once in order, one failure line is logged and nothing is written.
   */
  lemma Exhaustion(f: SourcePdf, pwds: seq<string>, folder: map<string, Document>)
    requires f.readError.None? && f.encrypted
    requires forall j :: 0 <= j < |pwds| ==> f.trial(pwds[j]) == Rejected
    ensures Decrypt(f, pwds) == Failed
    ensures Consulted(f, pwds) == pwds
    ensures DecryptMessage(f, pwds) == "Failed to decrypt: " + f.name
    ensures SaveFile(folder, f, pwds) == folder
  {
  }

  /** An unencrypted file consults no password, logs only that it is not encrypted, and is not copied. */
  lemma NotEncryptedIsSkipped(f: SourcePdf, pwds: seq<string>, folder: map<string, Document>)
    requires f.readError.None? && !f.encrypted
    ensures Decrypt(f, pwds) == NotEncrypted
    ensures Consulted(f, pwds) == []
    ensures DecryptMessage(f, pwds) == "PDF not encrypted: " + f.name
    ensures SaveFile(folder, f, pwds) == folder
  {
  }

  /**
   * An exception, on opening or during a trial, is logged as an error line
   * for this file and writes nothing.
   */
  lemma ErrorWritesNothing(f: SourcePdf, pwds: seq<string>, folder: map<string, Document>)
    requires Decrypt(f, pwds).Error?
    ensures SaveFile(folder, f, pwds) == folder
    ensures DecryptMessage(f, pwds) == "Error decrypting " + f.name + ": " + Decrypt(f, pwds).msg
  {
  }

  // ---------------------------------------------------------------------------
  // Properties of the loop over files

  /**
   * One outcome line per file, in listing order, and the line of each file
   * depends on that file alone: an exception in one file changes no other
   * file's line.
   */
  lemma DecryptLogAt(files: seq<SourcePdf>, pwds: seq<string>)
    ensures |DecryptLog(files, pwds)| == |files|
    ensures forall i :: 0 <= i < |files| ==> DecryptLog(files, pwds)[i] == DecryptMessage(files[i], pwds)
  {
    DecryptLogLength(files, pwds);
    forall i | 0 <= i < |files| ensures DecryptLog(files, pwds)[i] == DecryptMessage(files[i], pwds) {
      DecryptLogIndex(files, pwds, i);
    }
  }

  lemma {:induction false} DecryptLogLength(files: seq<SourcePdf>, pwds: seq<string>)
    ensures |DecryptLog(files, pwds)| == |files|
  {
    if files != [] {
      DecryptLogLength(files[..|files| - 1], pwds);
    }
  }

  lemma {:induction false} DecryptLogIndex(files: seq<SourcePdf>, pwds: seq<string>, i: nat)
    requires i < |files|
    ensures |DecryptLog(files, pwds)| == |files|
    ensures DecryptLog(files, pwds)[i] == DecryptMessage(files[i], pwds)
  {
    var init := files[..|files| - 1];
    var before := DecryptLog(init, pwds);
    DecryptLogLength(init, pwds);
    assert DecryptLog(files, pwds) == before + [DecryptMessage(files[|init|], pwds)];
    if i < |init| {
      DecryptLogIndex(init, pwds, i);
      assert DecryptLog(files, pwds)[i] == before[i];
      assert files[i] == init[i];
    }
  }

  /** The names the `*.pdf` listing of one folder returns: listable and pairwise distinct. */
  predicate ListedNames(files: seq<SourcePdf>) {
    && (forall i :: 0 <= i < |files| ==> IsPdfName(files[i].name))
    && (forall i, j :: 0 <= i < j < |files| ==> files[i].name != files[j].name)
  }

  /** Every name in the decrypted folder is the name of a listed input file. */
  lemma {:induction false} SaveAllKeys(files: seq<SourcePdf>, pwds: seq<string>, k: string)
    requires forall i :: 0 <= i < |files| ==> IsPdfName(files[i].name)
    requires k in SaveAll(map[], files, pwds)
    ensures exists i :: 0 <= i < |files| && files[i].name == k && Decrypt(files[i], pwds).Saved?
  {
    var init, last := files[..|files| - 1], files[|files| - 1];
    var before := SaveAll(map[], init, pwds);
    assert SaveAll(map[], files, pwds) == SaveFile(before, last, pwds);
    if k == last.name && Decrypt(last, pwds).Saved? {
    } else {
      if k != last.name {
        SaveFileKeeps(before, last, pwds, k);
      }
      SaveAllKeys(init, pwds, k);
      var i :| 0 <= i < |init| && init[i].name == k && Decrypt(init[i], pwds).Saved?;
      assert files[i] == init[i];
    }
  }

  /**
   * Starting from an empty folder, an input file has a decrypted copy, under
   * its own name and with its content, exactly when its decryption succeeded.
   * In particular an unencrypted or undecryptable file never reaches the
   * rename stage.
   */
  lemma {:induction false} SavedFolder(files: seq<SourcePdf>, pwds: seq<string>, i: nat)
    requires ListedNames(files)
    requires i < |files|
    ensures files[i].name in SaveAll(map[], files, pwds) <==> Decrypt(files[i], pwds).Saved?
    ensures Decrypt(files[i], pwds).Saved? ==> SaveAll(map[], files, pwds)[files[i].name] == files[i].content
  {
    var init, last := files[..|files| - 1], files[|files| - 1];
    var before := SaveAll(map[], init, pwds);
    assert SaveAll(map[], files, pwds) == SaveFile(before, last, pwds);
    ListedNamesPrefix(files);
    if i == |files| - 1 {
      NotYetSaved(files, pwds);
      SaveFileOwn(before, last, pwds);
    } else {
      assert files[i] == init[i];
      SavedFolder(init, pwds, i);
      SaveFileKeeps(before, last, pwds, files[i].name);
    }
  }

  /** A listed name is not in the folder built from the files listed before it. */
  lemma NotYetSaved(files: seq<SourcePdf>, pwds: seq<string>)
    requires ListedNames(files) && files != []
    ensures files[|files| - 1].name !in SaveAll(map[], files[..|files| - 1], pwds)
  {
    var init, last := files[..|files| - 1], files[|files| - 1];
    if last.name in SaveAll(map[], init, pwds) {
      SaveAllKeys(init, pwds, last.name);
    }
  }

  /** Processing a listed file stores it under its own name exactly when it is decrypted. */
  lemma SaveFileOwn(folder: map<string, Document>, f: SourcePdf, pwds: seq<string>)
    requires IsPdfName(f.name) && f.name !in folder
    ensures f.name in SaveFile(folder, f, pwds) <==> Decrypt(f, pwds).Saved?
    ensures Decrypt(f, pwds).Saved? ==> SaveFile(folder, f, pwds)[f.name] == f.content
  {
    OutputNameOfPdfName(f.name);
  }

  /** Processing a listed file leaves every other name as it was. */
  lemma SaveFileKeeps(folder: map<string, Document>, f: SourcePdf, pwds: seq<string>, k: string)
    requires IsPdfName(f.name) && k != f.name
    ensures k in SaveFile(folder, f, pwds) <==> k in folder
    ensures k in folder ==> SaveFile(folder, f, pwds)[k] == folder[k]
  {
    OutputNameOfPdfName(f.name);
  }

  lemma ListedNamesPrefix(files: seq<SourcePdf>)
    requires ListedNames(files) && files != []
    ensures ListedNames(files[..|files| - 1])
  {
    var init := files[..|files| - 1];
    forall a, b | 0 <= a < b < |init| ensures init[a].name != init[b].name {
      assert init[a] == files[a] && init[b] == files[b];
    }
  }

  /** One more file of the decrypt loop extends the folder, the trace and the log by that file's share. */
  lemma DecryptStep(folder: map<string, Document>, trace: seq<string>, files: seq<SourcePdf>, pwds: seq<string>, k: nat)
    requires k < |files|
    ensures SaveAll(folder, files[..k + 1], pwds) == SaveFile(SaveAll(folder, files[..k], pwds), files[k], pwds)
    ensures trace + ConsultedAll(files[..k + 1], pwds) == trace + ConsultedAll(files[..k], pwds) + Consulted(files[k], pwds)
    ensures DecryptLog(files[..k + 1], pwds) == DecryptLog(files[..k], pwds) + [DecryptMessage(files[k], pwds)]
  {
    var next := files[..k + 1];
    assert next[..k] == files[..k] && next[k] == files[k];
    assert ConsultedAll(next, pwds) == ConsultedAll(files[..k], pwds) + Consulted(files[k], pwds);
  }
}
