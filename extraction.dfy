/**
 * Identifier extraction: for each page, in page order, the text is split on
 * '\n'; when there are more than 14 lines, line index 14 is stripped and its
 * maximal digit runs are collected. The runs of all pages form one list.
 * If the text extractor raises, the runs gathered so far are what is returned.
 */
module Extraction {
  import opened Wrappers
  import opened Text

  /** 0-based index of the line that is scanned: the 15th line. */
  const LineIndex: nat := 14

  /** The text extractor raises `msg` once it has read `afterPages` pages (0: the document does not open). */
  datatype Fault = Fault(afterPages: nat, msg: string)

  /**
   * A decrypted document as the text extractor sees it: the text of each page
   * and, possibly, the point at which reading it fails. A fault placed after
   * more pages than there are is never reached.
   */
  datatype Document = Document(pages: seq<string>, fault: Option<Fault>)

  predicate Raises(d: Document) {
    d.fault.Some? && d.fault.value.afterPages <= |d.pages|
  }

  /** How many pages are scanned before the extractor stops or raises. */
  function PagesRead(d: Document): (n: nat)
    ensures n <= |d.pages|
    ensures n < |d.pages| ==> Raises(d)
    ensures Raises(d) ==> n == d.fault.value.afterPages
  {
    if Raises(d) then d.fault.value.afterPages else |d.pages|
  }

  /**
   * Line index 14 of the page text, stripped: present exactly when the page
   * holds at least 14 newlines, and never containing one.
   */
  function Line15(text: string): (r: Option<string>)
    ensures r.Some? <==> Count('\n', text) >= LineIndex
    ensures r.Some? ==> '\n' !in r.value
  {
    var lines := SplitLines(text);
    if |lines| > LineIndex then Some(Strip(lines[LineIndex])) else None
  }

  /** The digit runs one page contributes: none unless the page has a 15th line. */
  function PageTokens(text: string): (r: seq<string>)
    ensures Count('\n', text) < LineIndex ==> r == []
  {
    match Line15(text)
    case None => []
    case Some(line) => DigitRuns(line)
  }

  /** The digit runs of the given pages, page after page. */
  function DocumentTokens(pages: seq<string>): (r: seq<string>)
    ensures forall k :: 0 <= k < |r| ==> IsNumeral(r[k])
  {
    if pages == [] then [] else PageTokens(pages[0]) + DocumentTokens(pages[1..])
  }

  /** What `extract_numbers_from_15th_line` returns: the runs of the pages read. */
  function ExtractedTokens(d: Document): seq<string> {
    DocumentTokens(d.pages[..PagesRead(d)])
  }

  /** The log lines extraction writes: one error line when the extractor raises. */
  function ExtractionMessages(name: string, d: Document): (r: seq<string>)
    ensures |r| <= 1
    ensures r != [] <==> Raises(d)
    ensures r != [] ==> r[0] == "Error extracting numbers from " + name + ": " + d.fault.value.msg
  {
    if Raises(d) then ["Error extracting numbers from " + name + ": " + d.fault.value.msg] else []
  }

  /**
   * A page contributes the digit runs of its line index 14 exactly when it
   * holds at least 14 newlines; the surrounding whitespace `strip` removes
   * makes no difference.
   */
  lemma PageTokensSpec(text: string)
    ensures PageTokens(text) ==
      (if Count('\n', text) >= LineIndex then DigitRuns(SplitLines(text)[LineIndex]) else [])
  {
    var lines := SplitLines(text);
    if |lines| > LineIndex {
      StripKeepsDigitRuns(lines[LineIndex]);
    }
  }

  /** Tokens of consecutive page ranges concatenate. */
  lemma {:induction false} DocumentTokensAppend(p: seq<string>, q: seq<string>)
    ensures DocumentTokens(p + q) == DocumentTokens(p) + DocumentTokens(q)
  {
    if p == [] {
      assert p + q == q;
    } else {
      assert (p + q)[1..] == p[1..] + q;
      DocumentTokensAppend(p[1..], q);
    }
  }

  /** Reading one more page appends that page's tokens. */
  lemma DocumentTokensSnoc(pages: seq<string>, p: nat)
    requires p < |pages|
    ensures DocumentTokens(pages[..p + 1]) == DocumentTokens(pages[..p]) + PageTokens(pages[p])
  {
    assert pages[..p + 1] == pages[..p] + [pages[p]];
    DocumentTokensAppend(pages[..p], [pages[p]]);
    assert [pages[p]][1..] == [];
  }

  /** The document yields no token exactly when no page does. */
  lemma {:induction false} DocumentTokensEmpty(pages: seq<string>)
    ensures DocumentTokens(pages) == [] <==> forall i :: 0 <= i < |pages| ==> PageTokens(pages[i]) == []
  {
    if pages != [] {
      var tail := pages[1..];
      DocumentTokensEmpty(tail);
      assert DocumentTokens(pages) == PageTokens(pages[0]) + DocumentTokens(tail);
      if forall i :: 0 <= i < |pages| ==> PageTokens(pages[i]) == [] {
        forall i | 0 <= i < |tail| ensures PageTokens(tail[i]) == [] {
          assert tail[i] == pages[i + 1];
        }
      } else {
        var i :| 0 <= i < |pages| && PageTokens(pages[i]) != [];
        if i > 0 {
          assert pages[i] == tail[i - 1];
        }
      }
    }
  }

  /**
   * The first token of the document is the first token of the first page
   * that has one.
   */
  lemma {:induction false} FirstDocumentToken(pages: seq<string>, j: nat)
    requires j < |pages| && PageTokens(pages[j]) != []
    requires forall i :: 0 <= i < j ==> PageTokens(pages[i]) == []
    ensures DocumentTokens(pages) != []
    ensures DocumentTokens(pages)[0] == PageTokens(pages[j])[0]
  {
    assert pages == pages[..j] + [pages[j]] + pages[j + 1..];
    DocumentTokensAppend(pages[..j] + [pages[j]], pages[j + 1..]);
    DocumentTokensAppend(pages[..j], [pages[j]]);
    DocumentTokensEmpty(pages[..j]);
    assert [pages[j]][..0] == [];
  }

  /** A document whose every page has fewer than 15 lines yields no token. */
  lemma ShortDocumentNoTokens(d: Document)
    requires forall i :: 0 <= i < |d.pages| ==> Count('\n', d.pages[i]) < LineIndex
    ensures ExtractedTokens(d) == []
  {
    var read := d.pages[..PagesRead(d)];
    forall i | 0 <= i < |read| ensures PageTokens(read[i]) == [] {
      assert read[i] == d.pages[i];
    }
    DocumentTokensEmpty(read);
  }

  /**
   * A failing extraction returns the tokens of the pages read before the
   * failure: a prefix of what a complete read would give. Without a failure
   * it is the complete list.
   */
  lemma PartialExtraction(d: Document)
    ensures |ExtractedTokens(d)| <= |DocumentTokens(d.pages)|
    ensures ExtractedTokens(d) == DocumentTokens(d.pages)[..|ExtractedTokens(d)|]
    ensures !Raises(d) ==> ExtractedTokens(d) == DocumentTokens(d.pages)
  {
    var n := PagesRead(d);
    assert d.pages == d.pages[..n] + d.pages[n..];
    DocumentTokensAppend(d.pages[..n], d.pages[n..]);
  }

  /** The example layout: a 16-line page whose line index 14 reads "INV 12345 REF 67". */
  lemma InvoiceLineExample(lines: seq<string>)
    requires |lines| == 16
    requires forall i :: 0 <= i < 16 ==> '\n' !in lines[i]
    requires lines[LineIndex] == "INV 12345 REF 67"
    ensures PageTokens(JoinLines(lines)) == ["12345", "67"]
  {
    SplitJoinLines(lines);
    StripKeepsDigitRuns(lines[LineIndex]);
    InvoiceLineRuns();
  }

  lemma InvoiceLineRuns()
    ensures DigitRuns("INV 12345 REF 67") == ["12345", "67"]
  {
    var tail := " REF " + "67";
    assert DigitRuns(tail) == ["67"] by {
      DigitRunsAppend(" REF ", "67");
      DigitRunsEmpty(" REF ");
      DigitRunsNumeral("67");
    }
    assert DigitRuns("12345" + tail) == ["12345", "67"] by {
      DigitRunsAppend("12345", tail);
      DigitRunsNumeral("12345");
    }
    assert DigitRuns("INV " + ("12345" + tail)) == ["12345", "67"] by {
      DigitRunsAppend("INV ", "12345" + tail);
      DigitRunsEmpty("INV ");
    }
    assert "INV " + ("12345" + tail) == "INV 12345 REF 67";
  }
}
