# Crackpass: trial decryption and rename-by-identifier, modelled in Dafny

Crackpass is a small batch tool. It is given a spreadsheet whose column A holds
candidate passwords and a set of encrypted PDF files. It runs in three stages.

1. **Decrypt.** It tries the passwords on each listed PDF in list order. The
   first accepted password ends the search for that file. The decrypted copy
   goes into a "decrypted" folder under the file's stem plus `.pdf`.
2. **Extract.** For every decrypted file, it reads line index 14 (the 15th
   line) of every page, strips that line, and collects the maximal runs of
   digits on it. The runs of all pages form one list.
3. **Rename.** When that list is non-empty, the file is copied into a
   "renamed" folder as `<first run>.pdf`. An existing entry with the same name
   is overwritten, so the last write wins. Otherwise the file is skipped.

Every step appends a line to one run log. Each line ends with a newline.

The project has one module per concern:

| file | module | what it holds |
|---|---|---|
| `wrappers.dfy` | `Wrappers` | `Option` |
| `text.dfy` | `Text` | the string operations the script relies on (see below) |
| `logging.dfy` | `Logging` | the log text as a function of the logged messages |
| `passwords.dfy` | `Passwords` | spreadsheet cell values, truthiness, `str`, the password list |
| `naming.dfy` | `Naming` | `os.path.splitext`, the output name, the names a `*.pdf` listing returns |
| `extraction.dfy` | `Extraction` | documents as page texts with a possible extractor failure; the 15th-line tokens |
| `decryption.dfy` | `Decryption` | the password search, the per-file outcome, the decrypt loop as a fold |
| `renaming.dfy` | `Renaming` | the new name, the rename loop as a fold, last-write-wins |
| `pipeline.dfy` | `Pipeline` | class `Workspace`: the run log, the two folders and the loops that fill them |

The `Text` module models these Python operations:

- `str.strip()`, using the full `str.isspace()` set.
- `str.split('\n')` and its inverse `'\n'.join`.
- `re.findall(r'\d+', …)`.
- `str()` of integers.

The imperative core is class `Pipeline.Workspace`. It has these fields:

- `logs`: the global string that `log` appends to.
- `decrypted` and `renamed`: the two output folders, as maps from file name
  to document.
- `consulted`: a ghost trace of every password the PDF library was asked
  about.

Its methods follow the script's loops statement for statement. Each method is
proved against a specification function of the value-level modules:

- `SaveAll`, `ConsultedAll` and `DecryptLog` for the decrypt loop.
- `ExtractedTokens` and `ExtractionMessages` for the extraction.
- `RenameAll` and `RenameLog` for the rename loop.

The lemmas of those modules state what the script promises about those
functions.

External libraries are parameters of the model:

- **PDF library.** A `SourcePdf` carries the library's answer to each password
  (`trial: string -> Trial`, which is `Accepted`, `Rejected` or `Raised(msg)`).
  It also carries the error raised when the file is opened or asked whether it
  is encrypted (`readError`), its encryption flag, and its decrypted content.
- **Text extractor.** A `Document` is the text of each page plus an optional
  `Fault(afterPages, msg)`: the extractor raises `msg` once `afterPages` pages
  have been read. A value of 0 means the document does not open.
- **Folder listings.** A listing is given as a sequence of files or names in
  the order the listing returns them. The input listing holds distinct names
  a `*.pdf` listing can return (`Decryption.ListedNames`). The listing of the
  decrypted folder names every file in it exactly once, in some order
  (`Renaming.Enumerates`).

## Model

| member | source | states |
|---|---|---|
| Text.IsSpace | Crackpass.py:90 | no contract of its own: the characters `str.strip()` removes, the full `str.isspace()` set; `TrimStart`, `TrimEnd` and `Strip` state what stripping them does |
| Text.IsDigit | Crackpass.py:91 | no contract of its own: the characters `\d` matches, ASCII '0' to '9' (see "Left out"); `DigitRuns`, `DigitRunsEmpty` and `DigitRunsCoverDigits` state what `findall` collects |
| Text.SpaceIsNotDigit | Crackpass.py:90-91 | no character that `strip` removes is a digit that `\d` matches |
| Text.TrimStart | Crackpass.py:90 | the result is a suffix of the line that does not start with whitespace, and everything removed is whitespace |
| Text.TrimEnd | Crackpass.py:90 | the result is a prefix of the line that does not end with whitespace, and everything removed is whitespace |
| Text.Strip | Crackpass.py:90 | the result is a slice of the line with only whitespace cut on either side, and it neither starts nor ends with whitespace |
| Text.SplitLines | Crackpass.py:88 | `split('\n')` gives one more piece than the text has newlines, and no piece contains a newline |
| Text.JoinSplitLines | Crackpass.py:88 | joining the pieces with '\n' gives back the page text: splitting loses nothing |
| Text.SplitLinesNoNewline | Crackpass.py:88 | a text without newline splits into itself alone |
| Text.SplitLinesAtNewline | Crackpass.py:88 | splitting `a + "\n" + b`, with `a` newline-free, gives `a` followed by the pieces of `b` |
| Text.SplitJoinLines | Crackpass.py:88 | splitting the join of newline-free pieces gives back exactly those pieces |
| Text.DigitPrefixLength | Crackpass.py:91 | the length of the leading digit run: all digits before it, and a non-digit or the end right after it |
| Text.DigitPrefixLengthUnique | Crackpass.py:91 | that length is the only one with this property |
| Text.DigitRuns | Crackpass.py:91 | every token `\d+` yields is a non-empty run of digits |
| Text.DigitRunsEmpty | Crackpass.py:91 | no token is found exactly when the line holds no digit (both directions) |
| Text.DigitRunsNumeral | Crackpass.py:91 | a line that is one run of digits yields exactly that run |
| Text.DigitRunsAppend | Crackpass.py:91 | when the join point is not inside a digit run, the tokens of `a + b` are those of `a` then those of `b` |
| Text.TrimStartKeepsDigitRuns | Crackpass.py:90-91 | removing leading whitespace leaves the tokens unchanged |
| Text.TrimEndKeepsDigitRuns | Crackpass.py:90-91 | removing trailing whitespace leaves the tokens unchanged |
| Text.StripKeepsDigitRuns | Crackpass.py:90-91 | `strip()` before `findall` never changes the tokens |
| Text.DigitsAppend | Crackpass.py:91 | the digits of `a + b` are the digits of `a` then those of `b` |
| Text.DigitsOfNumeral | Crackpass.py:91 | an all-digit string is its own digit sequence |
| Text.DigitRunsCoverDigits | Crackpass.py:91 | the tokens, concatenated, are exactly the digits of the line in order: none lost, none reordered, none invented |
| Text.DigitChar | Crackpass.py:43 | each decimal digit value renders as a digit character |
| Text.NatToString | Crackpass.py:43 | `str(n)` of a count is a non-empty digit run with no leading zero unless `n` is 0 |
| Text.IntToString | Crackpass.py:49 | `str(i)` of an integer cell is never empty |
| Text.NatToStringValue | Crackpass.py:50 | reading the rendered count back as a decimal numeral gives the count |
| Logging.Lines | Crackpass.py:26-28 | no contract of its own: the log text after `log` was called with each message in turn; `LinesAppend`, `LinesAsJoin` and `LogReadsBack` state its properties |
| Logging.LinesAppend | Crackpass.py:26-28 | logging `a` then `b` yields the text of `a` followed by the text of `b`: the log only grows at its end |
| Logging.LogExtends | Crackpass.py:26-28 | appending the lines of `b` to a log that ends in the lines of `a` is the log of `a + b` |
| Logging.LinesAsJoin | Crackpass.py:26-28 | the log is the messages joined by '\n', with a final newline |
| Logging.LogReadsBack | Crackpass.py:26-28 | when no message holds a newline, splitting the log on '\n' recovers the messages in order, then one empty piece |
| Passwords.Truthy | Crackpass.py:49 | `if cell.value` keeps a cell exactly when it is not `None`, "", 0 or `False` (a float or date carries its own truthiness) |
| Passwords.Render | Crackpass.py:49 | `str(cell.value)` of a truthy string, integer or boolean is never empty, and a falsy one renders as "None", "", "0" or "False" |
| Passwords.PasswordList | Crackpass.py:49 | the comprehension yields at most one password per cell |
| Passwords.PasswordListAppend | Crackpass.py:49 | the list for a column is the list for its top part followed by the list for its bottom part |
| Passwords.PasswordListLength | Crackpass.py:49 | exactly one password per truthy cell |
| Passwords.PasswordListAt | Crackpass.py:49 | every truthy cell appears, rendered with `str`, at the position given by the number of truthy cells above it: order is kept and nothing truthy is dropped |
| Passwords.PasswordListOrigin | Crackpass.py:49 | every password is the `str` of a truthy cell, and the k-th password comes from the k-th truthy cell |
| Naming.LastDot | Crackpass.py:67 | the index of the last '.', or -1 when there is none |
| Naming.SplitExt | Crackpass.py:67 | stem and extension concatenate to the name; the extension is empty or a dot with no further dot; it is non-empty exactly when the name has a last dot preceded by some character other than a dot, and then it starts at that last dot |
| Naming.Stem | Crackpass.py:67 | no contract of its own: the first part of `os.path.splitext`, whose contract `SplitExt` states; `OutputNameOfPdfName` gives its value for listed names |
| Naming.IsPdfName | Crackpass.py:56 | no contract of its own: the base names a `*.pdf` glob returns (longer than ".pdf", ending in ".pdf", not hidden, no directory part); `OutputNameOfPdfName` and `NumeralPdfName` use it |
| Naming.OutputName | Crackpass.py:67-68 | the decrypted copy's name ends in ".pdf" |
| Naming.OutputNameOfPdfName | Crackpass.py:56-68 | for a name the `*.pdf` listing returns, the stem is the name without ".pdf", so the copy keeps the input's name |
| Extraction.PagesRead | Crackpass.py:84-96 | extraction scans every page unless the extractor raises; when it raises, exactly the pages before the failure are scanned |
| Extraction.Line15 | Crackpass.py:88-90 | line index 14 exists exactly when the page text holds at least 14 newlines, and the stripped line holds no newline |
| Extraction.PageTokens | Crackpass.py:88-92 | a page with fewer than 15 lines contributes no token |
| Extraction.ExtractionMessages | Crackpass.py:94-95 | extraction logs at most one line, present exactly when the extractor raises, and it names the file and the message |
| Extraction.DocumentTokens | Crackpass.py:86-92 | every collected token is a non-empty digit run |
| Extraction.ExtractedTokens | Crackpass.py:82-96 | no contract of its own: the return value of `extract_numbers_from_15th_line`, the tokens of the pages read; `PartialExtraction`, `ShortDocumentNoTokens`, `FirstDocumentToken` and `ExtractNumbers` state its properties |
| Extraction.PageTokensSpec | Crackpass.py:88-91 | a page contributes the digit runs of its line index 14 exactly when it has at least 14 newlines, else nothing; the strip makes no difference |
| Extraction.DocumentTokensAppend | Crackpass.py:86-92 | the tokens of consecutive page ranges concatenate, in page order |
| Extraction.DocumentTokensSnoc | Crackpass.py:86-92 | reading one more page appends exactly that page's tokens (the `extend`) |
| Extraction.DocumentTokensEmpty | Crackpass.py:86-92 | the document yields no token exactly when no page does |
| Extraction.FirstDocumentToken | Crackpass.py:86-104 | the first token of the document is the first token of the first page that has one |
| Extraction.ShortDocumentNoTokens | Crackpass.py:86-92 | a document whose pages all have fewer than 15 lines yields no token |
| Extraction.PartialExtraction | Crackpass.py:84-96 | after a failure, the returned tokens are a prefix of what a complete read gives; without a failure they are all of it |
| Extraction.InvoiceLineExample | Crackpass.py:88-91 | a 16-line page whose line index 14 reads "INV 12345 REF 67" contributes ["12345", "67"] |
| Extraction.InvoiceLineRuns | Crackpass.py:91 | `findall(r'\d+')` on "INV 12345 REF 67" gives ["12345", "67"] |
| Decryption.SearchPasswords | Crackpass.py:62-73 | the search stops at the first password not rejected: `Found(i)` means password i was accepted, `Crashed(i, m)` means it raised `m`, and every earlier one was rejected; `Exhausted` happens exactly when all were rejected |
| Decryption.Decrypt | Crackpass.py:58-79 | an unreadable file is an error with the read message; the file counts as not encrypted exactly when it opens and is unencrypted; otherwise the password search decides: saved exactly when it finds an accepted password, failed exactly when every password is rejected, and an error carrying the message of the exception the deciding trial raised; a saved copy takes the output name |
| Decryption.Consulted | Crackpass.py:60-73 | no more passwords are tried than listed; none exactly when the file is unreadable or unencrypted or the list is empty; when the file is saved the last one tried is the accepted one |
| Decryption.DecryptMessage | Crackpass.py:71-79 | the outcome line: "Error decrypting " with name and message for an unreadable file, "PDF not encrypted: " and the name for an unencrypted one, "Decrypted and saved: " and the output name on success |
| Decryption.SaveFile | Crackpass.py:63-73 | a successful decryption stores the file's content under its output name; any other outcome leaves the decrypted folder unchanged |
| Decryption.SaveAll | Crackpass.py:57-79 | no contract of its own: the decrypted folder after the loop over the listed files; `SavedFolder`, `SaveAllKeys` and `DecryptStep` state its properties |
| Decryption.DecryptLog | Crackpass.py:57-79 | no contract of its own: the decrypt loop's log lines; `DecryptLogAt` states them one per file in order |
| Decryption.ConsultedAll | Crackpass.py:57-73 | no contract of its own: the passwords asked about over the whole loop, file after file; `DecryptStep` and `ConsultedInOrder` state its properties |
| Decryption.ListedNames | Crackpass.py:56 | no contract of its own: the input listing, pairwise distinct names a `*.pdf` glob returns; `SavedFolder` and `NotYetSaved` rely on it |
| Decryption.SearchFindsFirst | Crackpass.py:62-73 | the first password not rejected decides the search: accepted means found, raised means crashed |
| Decryption.ConsultedInOrder | Crackpass.py:62-73 | passwords are tried in list order, each at most once, and every tried password but the last was rejected |
| Decryption.FirstMatchWins | Crackpass.py:62-73 | when password i is the first accepted, the file is saved under its output name, passwords 0..i are the only ones tried, and the log line is "Decrypted and saved: " and the name |
| Decryption.TrialRaises | Crackpass.py:62-79 | when password i is the first not rejected and asking about it raises, the outcome is an error with that exception's message, passwords 0..i are the only ones tried, "Error decrypting " with the name and that message is logged, and nothing is written |
| Decryption.Exhaustion | Crackpass.py:74-75 | when every password is rejected, all are tried, "Failed to decrypt: " and the name is logged, and nothing is written |
| Decryption.NotEncryptedIsSkipped | Crackpass.py:76-77 | an unencrypted file tries no password, logs "PDF not encrypted: " and the name, and is not written |
| Decryption.ErrorWritesNothing | Crackpass.py:78-79 | an exception logs "Error decrypting " with the name and message, and writes nothing |
| Decryption.DecryptLogAt | Crackpass.py:57-79 | the decrypt loop logs exactly one line per listed file, in listing order, and each file's line depends on that file alone |
| Decryption.DecryptLogLength | Crackpass.py:57-79 | the decrypt loop logs one line per listed file |
| Decryption.DecryptLogIndex | Crackpass.py:57-79 | the line at position i of the decrypt loop's log is the outcome line of file i |
| Decryption.SaveAllKeys | Crackpass.py:57-79 | every name in the decrypted folder is the name of a listed file whose decryption succeeded |
| Decryption.SavedFolder | Crackpass.py:57-79 | a listed file has a decrypted copy, under its own name and with its content, exactly when its decryption succeeded |
| Decryption.NotYetSaved | Crackpass.py:56-79 | a listed name is not in the folder built from the files listed before it |
| Decryption.SaveFileOwn | Crackpass.py:63-73 | processing a listed file puts its own name in the folder exactly when it is decrypted, with its content |
| Decryption.SaveFileKeeps | Crackpass.py:63-73 | processing a listed file leaves every other name as it was |
| Decryption.ListedNamesPrefix | Crackpass.py:56 | a prefix of a listing is a listing |
| Decryption.DecryptStep | Crackpass.py:57-79 | one more iteration of the decrypt loop extends the folder, the password trace and the log by that file's share |
| Renaming.Target | Crackpass.py:103-104 | a new name exists exactly when extraction returned at least one token |
| Renaming.TargetName | Crackpass.py:103-104 | the new name is the first token plus ".pdf", the token is a digit run, and the name is one a `*.pdf` listing returns |
| Renaming.NumeralPdfName | Crackpass.py:104 | a digit run plus ".pdf" is a listable PDF name whose stem is that run |
| Renaming.RenameLine | Crackpass.py:103-109 | the line is "Renamed and saved: " with the first token and ".pdf" when there is a token, else the skip line naming the file |
| Renaming.RenameFile | Crackpass.py:103-109 | a file with a token is copied under its first token plus ".pdf", overwriting that entry; a file without one changes nothing |
| Renaming.RenameMessages | Crackpass.py:95-109 | no contract of its own: the extraction error line, if any, then the rename or skip line; the contracts of `ExtractionMessages` and `RenameLine` and the lemma `ShortDocumentSkipped` state it |
| Renaming.RenameAll | Crackpass.py:99-107 | no contract of its own: the renamed folder after the loop; `LastWriteWins`, `UntargetedKept` and `TargetedStored` together determine every entry |
| Renaming.RenameLog | Crackpass.py:99-111 | no contract of its own: the rename loop's log lines; `RenameStep` states how each file extends it |
| Renaming.Enumerates | Crackpass.py:99 | no contract of its own: the listing of the decrypted folder names every file in it exactly once, in some order |
| Renaming.RenameStep | Crackpass.py:100-111 | one more iteration of the rename loop extends the renamed folder and the log by that file's share |
| Renaming.LastWriteWins | Crackpass.py:100-107 | the entry under a name holds the last listed file renamed to it, whatever earlier files wrote there |
| Renaming.UntargetedKept | Crackpass.py:100-109 | a name no listed file is renamed to keeps whatever the folder held |
| Renaming.TargetedStored | Crackpass.py:100-107 | a listed file with a token leaves an entry under its new name, holding that file or one listed after it with the same new name |
| Renaming.RenameFileElsewhere | Crackpass.py:104-106 | copying a file under another name leaves the entry under `k` as it was |
| Renaming.RenamePair | Crackpass.py:100-106 | the loop over two files renames the first, then the second |
| Renaming.Overwrite | Crackpass.py:104-106 | copying two files to the same name keeps only the second |
| Renaming.Collision | Crackpass.py:100-106 | two listed files with the same identifier leave one entry, and it holds the later file |
| Renaming.ShortDocumentSkipped | Crackpass.py:108-109 | a file whose pages all have fewer than 15 lines is not copied, and its last log line is the skip line |
| Renaming.LateFaultKeepsTarget | Crackpass.py:94-104 | once a token was found, a later extractor failure does not change the new name |
| Renaming.InvoiceDocumentTarget | Crackpass.py:102-104 | a file whose first page has 16 lines, with line index 14 reading "INV 12345 REF 67", is renamed "12345.pdf" |
| Pipeline.Workspace.constructor | Crackpass.py:15-24 | a run starts with an empty log and empty folders |
| Pipeline.Workspace.Log | Crackpass.py:26-28 | `log(msg)` appends the message and a newline, and changes nothing else |
| Pipeline.Workspace.LoadPasswords | Crackpass.py:49-50 | the password list is the comprehension's value, and its size is logged |
| Pipeline.Workspace.DecryptFile | Crackpass.py:58-79 | one iteration of the decrypt loop: the folder becomes `SaveFile`, the passwords tried are `Consulted`, and exactly the one outcome line is logged |
| Pipeline.Workspace.DecryptAll | Crackpass.py:56-79 | the decrypt loop leaves the folder `SaveAll`, the trace `ConsultedAll` and the log `DecryptLog` of the listed files |
| Pipeline.Workspace.ExtractNumbers | Crackpass.py:82-96 | the page loop returns the tokens of the pages read before any failure, and logs exactly the extraction error line, if any |
| Pipeline.Workspace.RenameOne | Crackpass.py:101-109 | one iteration of the rename loop: the renamed folder becomes `RenameFile`, and the log gains the extraction error line, if any, then the rename or skip line |
| Pipeline.Workspace.RenameAllListed | Crackpass.py:99-111 | the rename loop leaves the renamed folder `RenameAll` and the log `RenameLog` of the listed names |
| Pipeline.Workspace.Run | Crackpass.py:39-111 | the whole run, given a rename listing that names every decrypted file once: both folders, the password trace and the complete log, line by line and in order |
| Pipeline.RunLog | Crackpass.py:43-111 | the run's log starts with the upload count line and the password count line, followed by one outcome line per input file in listing order |
| Pipeline.RenamedValues | Crackpass.py:99-111 | every entry of the renamed folder is either an untouched earlier entry or a listed decrypted file |
| Pipeline.RenamedComeFromDecrypted | Crackpass.py:56-111 | every file in the renamed folder is the decrypted content of a listed input whose password search succeeded; unencrypted, undecryptable and unreadable inputs never reach it |
| Pipeline.DecryptedAreRenamed | Crackpass.py:56-111 | conversely, a decrypted upload with a token is listed for renaming, and its new name is in the renamed folder, holding its content unless a file listed after it took that name |

## Behaviour worth noting

- **Unencrypted files.** An unencrypted input is only logged as "PDF not
  encrypted" (lines 76-77) and is never copied. So it never reaches
  extraction or renaming (`Decryption.NotEncryptedIsSkipped`,
  `Pipeline.RenamedComeFromDecrypted`).
- **Line breaks.** Page text is split on '\n' only (line 88). A '\r' or
  another line separator stays inside a line, where `strip` may later remove
  it (`Text.SplitLines`).
- **Extraction errors.** When the text extractor raises, the tokens gathered
  before the failure are returned (lines 94-96). The file is still renamed
  when there are any (`Extraction.PartialExtraction`,
  `Renaming.LateFaultKeepsTarget`).
- **Empty password list.** Nothing requires column A to hold a password. With
  an empty list every encrypted file fails to decrypt
  (`Decryption.Exhaustion`).
- **Name collisions.** Two decrypted files whose first token is the same end
  up as one renamed file, holding the one listed later; both are logged as
  "Renamed and saved" (`Renaming.Collision`, `Renaming.LastWriteWins`).

## Left out

- The Streamlit user interface is not modelled: the uploaders, the log text
  area, the download button and the temporary-directory set-up. The log is
  modelled as the string the text area would show.
- The upload write loop (lines 39-42) is not modelled. `Run` takes the number
  of uploaded files and the input folder's listing as separate inputs. On
  the real file system the listing follows from the uploads: it drops names
  not ending in ".pdf" and hidden names (those starting with '.'), merges
  duplicate names, and comes in an arbitrary order. `Naming.IsPdfName` states
  which names a `*.pdf` listing can return.
- Spreadsheet parsing by openpyxl is not modelled. Column A is given as cell
  values. Floats, dates and other cell types are abstracted as
  `Other(shown, truthy)`, because their `str` rendering is a property of
  those types.
- The Excel load error path (lines 51-53: `st.error` and `st.stop`) is not
  modelled. It ends the script, and its message is not written to the log.
- Inside PyPDF2, `decrypt()` and the copying of pages into a `PdfWriter` are
  taken as given, through the `trial` answers and the `content` document.
  Writing the decrypted copy (lines 69-70) and `shutil.copy2` (line 106) are
  assumed to succeed. So the "Error renaming" line (lines 110-111) is never
  produced in the model, and an error while writing a decrypted copy is not
  modelled.
- PyMuPDF's text extraction is taken as given: a document is its page texts
  plus the point where the extractor raises.
- In Python 3, `\d` matches every Unicode decimal digit. The model matches the
  ASCII digits '0' to '9' only.
- `os.path.basename` and `os.path.join` are treated as the identity on base
  names. File names are already base names in the model.
- Packaging the renamed folder into a ZIP archive (lines 116-128) is not
  modelled.
- `Pipeline.Workspace.consulted` is a ghost trace that exists only to state
  which passwords the PDF library was asked about. The script keeps no such
  list.
