/**
 * The batch run as the script performs it: a workspace holding the run log
 * and the two output folders (decrypted copies, renamed copies), and the
 * loops that fill them. Folder listings are given as sequences of names in
 * the order the listing returns them.
 */
module Pipeline {
  import opened Wrappers
  import opened Text
  import opened Logging
  import opened Passwords
  import opened Naming
  import opened Extraction
  import opened Decryption
  import opened Renaming

  class Workspace {
    /** The run log; only ever appended to. */
    var logs: string
    /** The decrypted folder: file name to decrypted document. */
    var decrypted: map<string, Document>
    /** The renamed folder: file name to document. */
    var renamed: map<string, Document>
    /** Every password the PDF library has been asked about, in order. */
    ghost var consulted: seq<string>

    constructor ()
      ensures logs == "" && decrypted == map[] && renamed == map[] && consulted == []
    {
      logs := "";
      decrypted := map[];
      renamed := map[];
      consulted := [];
    }

    /** `log(msg)`: appends the message and a newline. */
    method Log(msg: string)
      modifies this`logs
      ensures logs == old(logs) + Lines([msg])
    {
      logs := logs + msg + "\n";
    }

    /** Builds the password list from column A and logs its size. */
    method LoadPasswords(cells: seq<CellValue>) returns (pwds: seq<string>)
      modifies this`logs
      ensures pwds == PasswordList(cells)
      ensures logs == old(logs) + Lines(["Loaded " + NatToString(|pwds|) + " passwords from Excel."])
    {
      pwds := PasswordList(cells);
      Log("Loaded " + NatToString(|pwds|) + " passwords from Excel.");
    }

    /** One iteration of the decrypt loop: the password search for one file. */
    method DecryptFile(f: SourcePdf, pwds: seq<string>)
      modifies this`logs, this`decrypted, this`consulted
      ensures decrypted == SaveFile(old(decrypted), f, pwds)
      ensures consulted == old(consulted) + Consulted(f, pwds)
      ensures logs == old(logs) + Lines([DecryptMessage(f, pwds)])
    {
      if f.readError.Some? {
        Log("Error decrypting " + f.name + ": " + f.readError.value);
        return;
      }
      if !f.encrypted {
        Log("PDF not encrypted: " + f.name);
        return;
      }
      var isDecrypted := false;
      var i := 0;
      while i < |pwds|
        invariant 0 <= i <= |pwds|
        invariant forall j :: 0 <= j < i ==> f.trial(pwds[j]) == Rejected
        invariant consulted == old(consulted) + pwds[..i]
        invariant logs == old(logs) && decrypted == old(decrypted) && !isDecrypted
      {
        var pwd := pwds[i];
        consulted := consulted + [pwd];
        assert pwds[..i + 1] == pwds[..i] + [pwd];
        var answer := f.trial(pwd);
        if answer.Raised? {
          SearchFindsFirst(pwds, f.trial, i);
          assert Decrypt(f, pwds) == Error(answer.msg);
          Log("Error decrypting " + f.name + ": " + answer.msg);
          return;
        }
        if answer == Accepted {
          FirstMatchWins(f, pwds, i, old(decrypted));
          var fileName := Stem(f.name);
          var outName := fileName + ".pdf";
          decrypted := decrypted[outName := f.content];
          Log("Decrypted and saved: " + outName);
          isDecrypted := true;
          break;
        }
        i := i + 1;
      }
      if !isDecrypted {
        assert pwds[..i] == pwds;
        Exhaustion(f, pwds, decrypted);
        Log("Failed to decrypt: " + f.name);
      }
    }

    /** The decrypt loop over the listed input files. */
    method DecryptAll(files: seq<SourcePdf>, pwds: seq<string>)
      modifies this`logs, this`decrypted, this`consulted
      ensures decrypted == SaveAll(old(decrypted), files, pwds)
      ensures consulted == old(consulted) + ConsultedAll(files, pwds)
      ensures logs == old(logs) + Lines(DecryptLog(files, pwds))
    {
      var k := 0;
      while k < |files|
        invariant 0 <= k <= |files|
        invariant decrypted == SaveAll(old(decrypted), files[..k], pwds)
        invariant consulted == old(consulted) + ConsultedAll(files[..k], pwds)
        invariant logs == old(logs) + Lines(DecryptLog(files[..k], pwds))
      {
        DecryptFile(files[k], pwds);
        DecryptStep(old(decrypted), old(consulted), files, pwds, k);
        LogExtends(old(logs), DecryptLog(files[..k], pwds), [DecryptMessage(files[k], pwds)]);
        k := k + 1;
      }
      assert files[..k] == files;
    }

    /** `extract_numbers_from_15th_line`: the page loop, stopped early by an exception. */
    method ExtractNumbers(name: string, d: Document) returns (nums: seq<string>)
      modifies this`logs
      ensures nums == ExtractedTokens(d)
      ensures logs == old(logs) + Lines(ExtractionMessages(name, d))
    {
      nums := [];
      var p := 0;
      while p < |d.pages|
        invariant 0 <= p <= PagesRead(d)
        invariant nums == DocumentTokens(d.pages[..p])
        invariant logs == old(logs)
      {
        if d.fault.Some? && d.fault.value.afterPages == p {
          Log("Error extracting numbers from " + name + ": " + d.fault.value.msg);
          return;
        }
        var numbers: seq<string> := [];
        var lines := SplitLines(d.pages[p]);
        if |lines| > LineIndex {
          var line := Strip(lines[LineIndex]);
          numbers := DigitRuns(line);
        }
        DocumentTokensSnoc(d.pages, p);
        nums := nums + numbers;
        p := p + 1;
      }
      assert d.pages[..p] == d.pages;
      if d.fault.Some? && d.fault.value.afterPages == |d.pages| {
        Log("Error extracting numbers from " + name + ": " + d.fault.value.msg);
      }
    }

    /** One iteration of the rename loop. */
    method RenameOne(name: string)
      requires name in decrypted
      modifies this`logs, this`renamed
      ensures renamed == RenameFile(old(renamed), decrypted[name])
      ensures logs == old(logs) + Lines(RenameMessages(name, decrypted[name]))
    {
      var d := decrypted[name];
      var nums := ExtractNumbers(name, d);
      var last;
      if nums != [] {
        var newName := nums[0] + ".pdf";
        assert Target(d) == Some(newName);
        renamed := renamed[newName := d];
        last := "Renamed and saved: " + newName;
      } else {
        assert Target(d) == None;
        last := "No numbers found in 15th line for " + name + " - skipping rename.";
      }
      assert last == RenameLine(name, d);
      Log(last);
      LogExtends(old(logs), ExtractionMessages(name, d), [last]);
    }

    /** The rename loop over the listed decrypted files. */
    method RenameAllListed(names: seq<string>)
      requires AllListed(decrypted, names)
      modifies this`logs, this`renamed
      ensures renamed == RenameAll(old(renamed), decrypted, names)
      ensures logs == old(logs) + Lines(RenameLog(decrypted, names))
    {
      var k := 0;
      while k < |names|
        invariant 0 <= k <= |names|
        invariant renamed == RenameAll(old(renamed), decrypted, names[..k])
        invariant logs == old(logs) + Lines(RenameLog(decrypted, names[..k]))
      {
        RenameOne(names[k]);
        RenameStep(old(renamed), decrypted, names, k);
        LogExtends(old(logs), RenameLog(decrypted, names[..k]), RenameMessages(names[k], decrypted[names[k]]));
        k := k + 1;
      }
      assert names[..k] == names;
    }

    /**
     * The whole run: log the number of uploaded files, load the passwords,
     * decrypt the files the input folder lists (`files`, in listing order),
     * then rename the files the decrypted folder lists (`order`).
     */
    method Run(cells: seq<CellValue>, uploaded: nat, files: seq<SourcePdf>, order: seq<string>)
      requires Enumerates(SaveAll(decrypted, files, PasswordList(cells)), order)
      modifies this`logs, this`decrypted, this`renamed, this`consulted
      ensures decrypted == SaveAll(old(decrypted), files, PasswordList(cells))
      ensures renamed == RenameAll(old(renamed), decrypted, order)
      ensures consulted == old(consulted) + ConsultedAll(files, PasswordList(cells))
      ensures logs == old(logs) + Lines(RunLog(cells, uploaded, files, decrypted, order))
    {
      var saved := "Saved " + NatToString(uploaded) + " PDF files.";
      Log(saved);
      var pwds := LoadPasswords(cells);
      var loaded := "Loaded " + NatToString(|pwds|) + " passwords from Excel.";
      LogExtends(old(logs), [saved], [loaded]);
      DecryptAll(files, pwds);
      LogExtends(old(logs), [saved, loaded], DecryptLog(files, pwds));
      RenameAllListed(order);
      LogExtends(old(logs), [saved, loaded] + DecryptLog(files, pwds), RenameLog(decrypted, order));
    }
  }

  /**
   * The log lines of a whole run, in the order they are written: the upload
   * count, the password count, then one outcome line per input file in
   * listing order, then the rename lines.
   */
  function RunLog(cells: seq<CellValue>, uploaded: nat, files: seq<SourcePdf>,
                  folder: map<string, Document>, order: seq<string>): (r: seq<string>)
    requires AllListed(folder, order)
    ensures |r| >= 2 + |files|
    ensures r[0] == "Saved " + NatToString(uploaded) + " PDF files."
    ensures r[1] == "Loaded " + NatToString(|PasswordList(cells)|) + " passwords from Excel."
    ensures forall i :: 0 <= i < |files| ==> r[2 + i] == DecryptMessage(files[i], PasswordList(cells))
  {
    var pwds := PasswordList(cells);
    var decrypting := DecryptLog(files, pwds);
    DecryptLogAt(files, pwds);
    var r := ["Saved " + NatToString(uploaded) + " PDF files.",
              "Loaded " + NatToString(|pwds|) + " passwords from Excel."]
             + decrypting + RenameLog(folder, order);
    assert forall i :: 0 <= i < |files| ==> r[2 + i] == decrypting[i];
    r
  }

  /** Every entry of the renamed folder comes from the store it started with or from a listed file. */
  lemma {:induction false} RenamedValues(store: map<string, Document>, folder: map<string, Document>,
                                         names: seq<string>, k: string)
    requires AllListed(folder, names)
    requires k in RenameAll(store, folder, names)
    ensures (k in store && RenameAll(store, folder, names)[k] == store[k])
            || exists j :: 0 <= j < |names| && RenameAll(store, folder, names)[k] == folder[names[j]]
  {
    if names != [] {
      var init, last := names[..|names| - 1], names[|names| - 1];
      var before := RenameAll(store, folder, init);
      if Target(folder[last]) != Some(k) {
        RenamedValues(store, folder, init, k);
        if !(k in store && before[k] == store[k]) {
          var j :| 0 <= j < |init| && before[k] == folder[init[j]];
          assert init[j] == names[j];
        }
      }
    }
  }

  /**
   * End to end: every file in the renamed folder of a run is the decrypted
   * content of an upload whose password search succeeded. Unencrypted,
   * undecryptable and unreadable uploads never reach it.
   */
  lemma RenamedComeFromDecrypted(uploads: seq<SourcePdf>, pwds: seq<string>, order: seq<string>, k: string)
    requires ListedNames(uploads)
    requires AllListed(SaveAll(map[], uploads, pwds), order)
    requires k in RenameAll(map[], SaveAll(map[], uploads, pwds), order)
    ensures exists i :: 0 <= i < |uploads| && Decrypt(uploads[i], pwds).Saved?
                        && RenameAll(map[], SaveAll(map[], uploads, pwds), order)[k] == uploads[i].content
  {
    var folder := SaveAll(map[], uploads, pwds);
    RenamedValues(map[], folder, order, k);
    var j :| 0 <= j < |order| && RenameAll(map[], folder, order)[k] == folder[order[j]];
    SaveAllKeys(uploads, pwds, order[j]);
    var i :| 0 <= i < |uploads| && uploads[i].name == order[j] && Decrypt(uploads[i], pwds).Saved?;
    SavedFolder(uploads, pwds, i);
  }

  /**
   * End to end, the converse: a successfully decrypted upload with a number
   * in its 15th line is listed once for renaming, and its new name is in the
   * renamed folder, holding its content unless a file listed after it took
   * the same name.
   */
  lemma DecryptedAreRenamed(uploads: seq<SourcePdf>, pwds: seq<string>, order: seq<string>, i: nat)
    requires ListedNames(uploads)
    requires Enumerates(SaveAll(map[], uploads, pwds), order)
    requires i < |uploads| && Decrypt(uploads[i], pwds).Saved?
    requires ExtractedTokens(uploads[i].content) != []
    ensures var folder := SaveAll(map[], uploads, pwds);
            var t := Target(uploads[i].content).value;
            && t in RenameAll(map[], folder, order)
            && exists p :: 0 <= p < |order| && order[p] == uploads[i].name
                 && (RenameAll(map[], folder, order)[t] == uploads[i].content
                     || exists j :: p < j < |order| && Target(folder[order[j]]) == Some(t)
                                    && RenameAll(map[], folder, order)[t] == folder[order[j]])
  {
    var folder := SaveAll(map[], uploads, pwds);
    var name := uploads[i].name;
    var t := Target(uploads[i].content).value;
    SavedFolder(uploads, pwds, i);
    var p :| 0 <= p < |order| && order[p] == name;
    TargetedStored(map[], folder, order, p, t);
  }
}
