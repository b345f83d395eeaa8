/**
 * Page extraction: one page record per PDF page, with OCR for pages whose text layer
 * is blank, and table extraction with its CSV side files.
 */
module Extract {
  import opened Outcomes
  import opened Text
  import opened Records

  /** The OCR engine raised while reading the page with this 1-based number. */
  datatype ExtractError = OcrFailed(page: nat)

  /** `f"Page {page_num}"` */
  function PageTitle(n: nat): string {
    "Page " + NatToString(n)
  }

  /** `page.extract_text() or ""` */
  function RawText(p: PdfPage): string {
    if p.text.Some? then p.text.value else ""
  }

  /**
   * The text kept for the page at 0-based index i: the text layer verbatim, or the OCR
   * reading of page image i when the text layer is blank (`None` when OCR raises).
   */
  function PageText(p: PdfPage, ocr: nat -> Option<string>, i: nat): Option<string> {
    if IsBlank(RawText(p)) then ocr(i) else Some(RawText(p))
  }

  /** The records `extract_text_with_fallback` returns, or the first OCR failure. */
  function PageRecords(pdf: seq<PdfPage>, ocr: nat -> Option<string>): Result<seq<Doc>, ExtractError>
    decreases |pdf|
  {
    if pdf == [] then Ok([])
    else
      var n := |pdf| - 1;
      match PageRecords(pdf[..n], ocr)
      case Err(e) => Err(e)
      case Ok(docs) =>
        match PageText(pdf[n], ocr, n)
        case None => Err(OcrFailed(n + 1))
        case Some(text) => Ok(docs + [Doc(None, PageTitle(n + 1), text, [n + 1], [])])
  }

  /** A failure on the first k pages is the failure of the whole document. */
  lemma {:induction false} PageRecordsErrPersists(pdf: seq<PdfPage>, ocr: nat -> Option<string>, k: nat)
    requires k <= |pdf| && PageRecords(pdf[..k], ocr).Err?
    ensures PageRecords(pdf, ocr) == PageRecords(pdf[..k], ocr)
  {
    if k < |pdf| {
      var n := |pdf| - 1;
      assert pdf[..n][..k] == pdf[..k];
      PageRecordsErrPersists(pdf[..n], ocr, k);
    } else {
      assert pdf[..k] == pdf;
    }
  }

  /** Every page whose text layer is blank can be read by OCR. */
  predicate OcrCovers(pdf: seq<PdfPage>, ocr: nat -> Option<string>) {
    forall i :: 0 <= i < |pdf| && IsBlank(RawText(pdf[i])) ==> ocr(i).Some?
  }

  /** Extraction of a non-empty document succeeds exactly when the earlier pages and the last one do. */
  lemma PageRecordsOkStep(pdf: seq<PdfPage>, ocr: nat -> Option<string>)
    requires pdf != []
    ensures PageRecords(pdf, ocr).Ok? <==>
      PageRecords(pdf[..|pdf| - 1], ocr).Ok? && PageText(pdf[|pdf| - 1], ocr, |pdf| - 1).Some?
  {
  }

  lemma OcrCoversStep(pdf: seq<PdfPage>, ocr: nat -> Option<string>)
    requires pdf != []
    ensures OcrCovers(pdf, ocr) <==>
      OcrCovers(pdf[..|pdf| - 1], ocr) && PageText(pdf[|pdf| - 1], ocr, |pdf| - 1).Some?
  {
    var n := |pdf| - 1;
    if OcrCovers(pdf, ocr) {
      forall i | 0 <= i < n && IsBlank(RawText(pdf[..n][i])) ensures ocr(i).Some? {
        assert pdf[..n][i] == pdf[i];
      }
    }
    if OcrCovers(pdf[..n], ocr) && PageText(pdf[n], ocr, n).Some? {
      forall i | 0 <= i < |pdf| && IsBlank(RawText(pdf[i])) ensures ocr(i).Some? {
        if i < n {
          assert pdf[..n][i] == pdf[i];
        }
      }
    }
  }

  /** Extraction fails exactly when some blank page needs OCR and OCR raises. */
  lemma {:induction false} PageRecordsOk(pdf: seq<PdfPage>, ocr: nat -> Option<string>)
    ensures PageRecords(pdf, ocr).Ok? <==> OcrCovers(pdf, ocr)
  {
    if pdf != [] {
      PageRecordsOk(pdf[..|pdf| - 1], ocr);
      PageRecordsOkStep(pdf, ocr);
      OcrCoversStep(pdf, ocr);
    }
  }

  lemma {:induction false} PageRecordsLength(pdf: seq<PdfPage>, ocr: nat -> Option<string>)
    requires PageRecords(pdf, ocr).Ok?
    ensures |PageRecords(pdf, ocr).value| == |pdf|
  {
    if pdf != [] {
      PageRecordsLength(pdf[..|pdf| - 1], ocr);
    }
  }

  /** A successful extraction is the extraction of all but the last page, plus the last page's record. */
  lemma PageRecordsStep(pdf: seq<PdfPage>, ocr: nat -> Option<string>)
    requires pdf != [] && PageRecords(pdf, ocr).Ok?
    ensures PageRecords(pdf[..|pdf| - 1], ocr).Ok? && PageText(pdf[|pdf| - 1], ocr, |pdf| - 1).Some?
    ensures PageRecords(pdf, ocr).value ==
      PageRecords(pdf[..|pdf| - 1], ocr).value +
        [Doc(None, PageTitle(|pdf|), PageText(pdf[|pdf| - 1], ocr, |pdf| - 1).value, [|pdf|], [])]
  {
  }

  /**
   * One record per page, in order, numbered from 1: record i is titled "Page i+1", is
   * labelled [i+1], has no tables and no explicit id, and holds the text layer verbatim
   * unless that text is blank, in which case it holds the OCR reading of page image i.
   */
  lemma {:induction false} PageRecordAt(pdf: seq<PdfPage>, ocr: nat -> Option<string>, i: nat)
    requires PageRecords(pdf, ocr).Ok? && i < |pdf|
    ensures |PageRecords(pdf, ocr).value| == |pdf|
    ensures PageText(pdf[i], ocr, i).Some?
    ensures PageRecords(pdf, ocr).value[i] == Doc(None, PageTitle(i + 1), PageText(pdf[i], ocr, i).value, [i + 1], [])
  {
    var n := |pdf| - 1;
    var init := pdf[..n];
    PageRecordsStep(pdf, ocr);
    PageRecordsLength(init, ocr);
    var earlier := PageRecords(init, ocr).value;
    var last := Doc(None, PageTitle(n + 1), PageText(pdf[n], ocr, n).value, [n + 1], []);
    assert PageRecords(pdf, ocr).value == earlier + [last];
    if i < n {
      PageRecordAt(init, ocr, i);
      assert init[i] == pdf[i];
      assert PageText(init[i], ocr, i) == PageText(pdf[i], ocr, i);
      assert (earlier + [last])[i] == earlier[i];
    } else {
      assert i == n && pdf[i] == pdf[|pdf| - 1];
      assert (earlier + [last])[n] == last;
    }
  }

  /** A failure names the first page that needed OCR and did not get it. */
  lemma {:induction false} PageRecordsFirstFailure(pdf: seq<PdfPage>, ocr: nat -> Option<string>)
    requires PageRecords(pdf, ocr).Err?
    ensures exists k :: (0 <= k < |pdf| && PageRecords(pdf, ocr).error == OcrFailed(k + 1) &&
                         IsBlank(RawText(pdf[k])) && ocr(k).None? &&
                         forall i :: 0 <= i < k && IsBlank(RawText(pdf[i])) ==> ocr(i).Some?)
  {
    var n := |pdf| - 1;
    var init := pdf[..n];
    assert forall i :: 0 <= i < n ==> init[i] == pdf[i];
    if PageRecords(init, ocr).Err? {
      PageRecordsFirstFailure(init, ocr);
    } else {
      PageRecordsOk(init, ocr);
    }
  }

  /** `extract_text_with_fallback`: walks the pages in order, calling OCR on blank ones. */
  method ExtractTextWithFallback(pdf: seq<PdfPage>, ocr: nat -> Option<string>)
    returns (r: Result<seq<Doc>, ExtractError>)
    ensures r == PageRecords(pdf, ocr)
  {
    var docs: seq<Doc> := [];
    for i := 0 to |pdf|
      invariant PageRecords(pdf[..i], ocr) == Ok(docs)
    {
      assert pdf[..i + 1][..i] == pdf[..i];
      var text := if pdf[i].text.Some? then pdf[i].text.value else "";
      if Strip(text) == "" {
        var scanned := ocr(i);
        if scanned.None? {
          PageRecordsErrPersists(pdf, ocr, i + 1);
          return Err(OcrFailed(i + 1));
        }
        text := scanned.value;
      }
      docs := docs + [Doc(None, "Page " + NatToString(i + 1), text, [i + 1], [])];
    }
    assert pdf[..|pdf|] == pdf;
    return Ok(docs);
  }

  /** `not page_tables or all(not t for t in page_tables)` */
  predicate NoTables(ts: seq<RawTable>) {
    ts == [] || forall k :: 0 <= k < |ts| ==> ts[k] == []
  }

  /** The DataFrames of one page: its non-empty tables, header split off, in order. */
  function PageFrames(ts: seq<RawTable>): seq<Table>
    decreases |ts|
  {
    if ts == [] then []
    else
      var last := ts[|ts| - 1];
      PageFrames(ts[..|ts| - 1]) + (if last != [] then [Frame(last)] else [])
  }

  /** The list `extract_tables_from_pdf` returns: page by page, table by table. */
  function AllFrames(pdf: seq<PdfPage>): seq<Table>
    decreases |pdf|
  {
    if pdf == [] then []
    else
      var last := pdf[|pdf| - 1];
      AllFrames(pdf[..|pdf| - 1]) + (if NoTables(last.tables) then [] else PageFrames(last.tables))
  }

  /** A CSV file written as a side effect: its path and the frame written to it. */
  datatype CsvWrite = CsvWrite(path: string, frame: Table)

  /** `f"{output_csv}_page{page_num}_table{table_num}.csv"` */
  function CsvPath(prefix: string, n: nat, k: nat): string {
    prefix + "_page" + NatToString(n) + "_table" + NatToString(k) + ".csv"
  }

  /** Files for the non-empty tables of page n; table k is numbered by its 1-based position. */
  function TableWrites(prefix: string, n: nat, ts: seq<RawTable>): seq<CsvWrite>
    decreases |ts|
  {
    if ts == [] then []
    else
      var k := |ts|;
      TableWrites(prefix, n, ts[..k - 1]) +
        (if ts[k - 1] != [] then [CsvWrite(CsvPath(prefix, n, k), Frame(ts[k - 1]))] else [])
  }

  /** Files written for page n: the `table0` sentinel when it has no table, else one per table. */
  function PageWrites(outputCsv: Option<string>, n: nat, ts: seq<RawTable>): seq<CsvWrite> {
    if !Truthy(outputCsv) then []
    else if NoTables(ts) then [CsvWrite(CsvPath(outputCsv.value, n, 0), EmptyFrame)]
    else TableWrites(outputCsv.value, n, ts)
  }

  function AllWrites(outputCsv: Option<string>, pdf: seq<PdfPage>): seq<CsvWrite>
    decreases |pdf|
  {
    if pdf == [] then []
    else AllWrites(outputCsv, pdf[..|pdf| - 1]) + PageWrites(outputCsv, |pdf|, pdf[|pdf| - 1].tables)
  }

  /** The inner `for` over one page's tables: every non-empty table becomes a frame and, with a prefix, a file. */
  method AppendPageTables(tables: seq<Table>, writes: seq<CsvWrite>, pageTables: seq<RawTable>,
                          pageNum: nat, outputCsv: Option<string>)
    returns (tables': seq<Table>, writes': seq<CsvWrite>)
    ensures tables' == tables + PageFrames(pageTables)
    ensures writes' == writes + (if Truthy(outputCsv) then TableWrites(outputCsv.value, pageNum, pageTables) else [])
  {
    tables', writes' := tables, writes;
    for k := 0 to |pageTables|
      invariant tables' == tables + PageFrames(pageTables[..k])
      invariant writes' == writes +
        (if Truthy(outputCsv) then TableWrites(outputCsv.value, pageNum, pageTables[..k]) else [])
    {
      assert pageTables[..k + 1][..k] == pageTables[..k];
      var table := pageTables[k];
      if table != [] {
        var df := Frame(table);
        tables' := tables' + [df];
        if Truthy(outputCsv) {
          writes' := writes' + [CsvWrite(CsvPath(outputCsv.value, pageNum, k + 1), df)];
        }
      }
    }
    assert pageTables[..|pageTables|] == pageTables;
  }

  /** `extract_tables_from_pdf`: the frames in page-then-table order, and the CSV files written. */
  method ExtractTablesFromPdf(pdf: seq<PdfPage>, outputCsv: Option<string>)
    returns (tables: seq<Table>, writes: seq<CsvWrite>)
    ensures tables == AllFrames(pdf)
    ensures writes == AllWrites(outputCsv, pdf)
  {
    tables, writes := [], [];
    for i := 0 to |pdf|
      invariant tables == AllFrames(pdf[..i])
      invariant writes == AllWrites(outputCsv, pdf[..i])
    {
      assert pdf[..i + 1][..i] == pdf[..i];
      var pageTables := pdf[i].tables;
      var pageNum := i + 1;
      if pageTables == [] || forall k :: 0 <= k < |pageTables| ==> pageTables[k] == [] {
        assert NoTables(pageTables);
        if Truthy(outputCsv) {
          writes := writes + [CsvWrite(CsvPath(outputCsv.value, pageNum, 0), EmptyFrame)];
        }
        continue;
      }
      assert !NoTables(pageTables);
      tables, writes := AppendPageTables(tables, writes, pageTables, pageNum, outputCsv);
    }
    assert pdf[..|pdf|] == pdf;
  }

  /** A page adds nothing to the returned list exactly when it takes the sentinel branch. */
  lemma {:induction false} NoTablesIffNoFrames(ts: seq<RawTable>)
    ensures NoTables(ts) <==> PageFrames(ts) == []
  {
    if ts != [] {
      var n := |ts| - 1;
      NoTablesIffNoFrames(ts[..n]);
      assert forall k :: 0 <= k < n ==> ts[..n][k] == ts[k];
    }
  }

  /** A page writes one table file per frame it contributes. */
  lemma {:induction false} TableWritesLength(prefix: string, n: nat, ts: seq<RawTable>)
    ensures |TableWrites(prefix, n, ts)| == |PageFrames(ts)|
  {
    if ts != [] {
      TableWritesLength(prefix, n, ts[..|ts| - 1]);
    }
  }

  /**
   * Each table file of page n is paired, in order, with the frame returned for it; its
   * number k is the table's 1-based position among all the page's tables, empty ones
   * included, and table k is non-empty.
   */
  lemma {:induction false} TableWritesMatchFrames(prefix: string, n: nat, ts: seq<RawTable>, j: nat)
    requires j < |PageFrames(ts)|
    ensures |TableWrites(prefix, n, ts)| == |PageFrames(ts)|
    ensures TableWrites(prefix, n, ts)[j].frame == PageFrames(ts)[j]
    ensures exists k :: 1 <= k <= |ts| && ts[k - 1] != [] &&
              TableWrites(prefix, n, ts)[j].path == CsvPath(prefix, n, k) && PageFrames(ts)[j] == Frame(ts[k - 1])
  {
    var m := |ts| - 1;
    var init := ts[..m];
    TableWritesLength(prefix, n, ts);
    TableWritesLength(prefix, n, init);
    if j < |PageFrames(init)| {
      TableWritesMatchFrames(prefix, n, init, j);
      var k :| 1 <= k <= |init| && init[k - 1] != [] &&
               TableWrites(prefix, n, init)[j].path == CsvPath(prefix, n, k) && PageFrames(init)[j] == Frame(init[k - 1]);
      assert init[k - 1] == ts[k - 1];
    } else {
      assert ts[m] != [];
      assert TableWrites(prefix, n, ts)[j].path == CsvPath(prefix, n, m + 1);
    }
  }

  /** With a falsy `output_csv` no file is written. */
  lemma {:induction false} NoWritesWhenFalsy(outputCsv: Option<string>, pdf: seq<PdfPage>)
    requires !Truthy(outputCsv)
    ensures AllWrites(outputCsv, pdf) == []
  {
    if pdf != [] {
      NoWritesWhenFalsy(outputCsv, pdf[..|pdf| - 1]);
    }
  }

  /** The file-name tail after a page number: "table<k>.csv". */
  function TableSuffix(k: nat): string {
    "table" + NatToString(k) + ".csv"
  }

  lemma TableSuffixInjective(k1: nat, k2: nat)
    requires TableSuffix(k1) == TableSuffix(k2)
    ensures k1 == k2
  {
    var s1, s2 := TableSuffix(k1), TableSuffix(k2);
    assert NatToString(k1) == s1[5..|s1| - 4];
    assert NatToString(k2) == s2[5..|s2| - 4];
    NatToStringInjective(k1, k2);
  }

  /** The file name splits at the `_` after the page number: what comes before, the number, then "table<k>.csv". */
  lemma CsvPathShape(prefix: string, n: nat, k: nat)
    ensures CsvPath(prefix, n, k) == (prefix + "_page") + (NatToString(n) + ['_'] + TableSuffix(k))
  {
  }

  lemma CancelLeft(h: string, x: string, y: string)
    requires h + x == h + y
    ensures x == y
  {
    assert x == (h + x)[|h|..];
  }

  /** Distinct (page, table) pairs get distinct file names; the `table0` sentinel never clashes with a table file. */
  lemma CsvPathInjective(prefix: string, n1: nat, k1: nat, n2: nat, k2: nat)
    requires CsvPath(prefix, n1, k1) == CsvPath(prefix, n2, k2)
    ensures n1 == n2 && k1 == k2
  {
    CsvPathShape(prefix, n1, k1);
    CsvPathShape(prefix, n2, k2);
    CancelLeft(prefix + "_page", NatToString(n1) + ['_'] + TableSuffix(k1), NatToString(n2) + ['_'] + TableSuffix(k2));
    SplitAtSeparator(NatToString(n1), TableSuffix(k1), NatToString(n2), TableSuffix(k2), '_');
    NatToStringInjective(n1, n2);
    TableSuffixInjective(k1, k2);
  }


  /** The 1-based positions of a page's non-empty tables: the numbers in their file names. */
  function TableNumbers(ts: seq<RawTable>): seq<nat>
    decreases |ts|
  {
    if ts == [] then []
    else TableNumbers(ts[..|ts| - 1]) + (if ts[|ts| - 1] != [] then [|ts|] else [])
  }

  /** The table files of a page are named by increasing table numbers, each between 1 and the table count. */
  lemma {:induction false} TableNumbersNameFiles(prefix: string, n: nat, ts: seq<RawTable>)
    ensures |TableNumbers(ts)| == |TableWrites(prefix, n, ts)|
    ensures forall j :: 0 <= j < |TableNumbers(ts)| ==>
              1 <= TableNumbers(ts)[j] <= |ts| &&
              TableWrites(prefix, n, ts)[j].path == CsvPath(prefix, n, TableNumbers(ts)[j])
    ensures forall a, b :: 0 <= a < b < |TableNumbers(ts)| ==> TableNumbers(ts)[a] < TableNumbers(ts)[b]
  {
    if ts != [] {
      var init := ts[..|ts| - 1];
      TableNumbersNameFiles(prefix, n, init);
      var ks, ws := TableNumbers(init), TableWrites(prefix, n, init);
      if ts[|ts| - 1] != [] {
        var w := CsvWrite(CsvPath(prefix, n, |ts|), Frame(ts[|ts| - 1]));
        assert TableNumbers(ts) == ks + [|ts|];
        assert TableWrites(prefix, n, ts) == ws + [w];
        forall j | 0 <= j < |ks| ensures (ks + [|ts|])[j] == ks[j] && (ws + [w])[j] == ws[j] {
        }
      } else {
        assert TableNumbers(ts) == ks;
        assert TableWrites(prefix, n, ts) == ws;
      }
    }
  }

  /** The (page, table) numbers in the names of the files written for page n; table 0 is the sentinel. */
  function PageFileNumbers(outputCsv: Option<string>, n: nat, ts: seq<RawTable>): seq<(nat, nat)> {
    if !Truthy(outputCsv) then []
    else if NoTables(ts) then [(n, 0)]
    else seq(|TableNumbers(ts)|, i requires 0 <= i < |TableNumbers(ts)| => (n, TableNumbers(ts)[i]))
  }

  /** The (page, table) numbers in the names of all files written, in writing order. */
  function FileNumbers(outputCsv: Option<string>, pdf: seq<PdfPage>): seq<(nat, nat)>
    decreases |pdf|
  {
    if pdf == [] then []
    else FileNumbers(outputCsv, pdf[..|pdf| - 1]) + PageFileNumbers(outputCsv, |pdf|, pdf[|pdf| - 1].tables)
  }

  /** Page n's files are named by its own number and increasing table numbers. */
  lemma PageFileNumbersNameFiles(outputCsv: Option<string>, n: nat, ts: seq<RawTable>)
    ensures |PageFileNumbers(outputCsv, n, ts)| == |PageWrites(outputCsv, n, ts)|
    ensures forall j :: 0 <= j < |PageFileNumbers(outputCsv, n, ts)| ==>
              Truthy(outputCsv) && PageFileNumbers(outputCsv, n, ts)[j].0 == n &&
              PageWrites(outputCsv, n, ts)[j].path == CsvPath(outputCsv.value, n, PageFileNumbers(outputCsv, n, ts)[j].1)
    ensures forall a, b :: 0 <= a < b < |PageFileNumbers(outputCsv, n, ts)| ==>
              PageFileNumbers(outputCsv, n, ts)[a].1 < PageFileNumbers(outputCsv, n, ts)[b].1
  {
    if Truthy(outputCsv) && !NoTables(ts) {
      TableNumbersNameFiles(outputCsv.value, n, ts);
    }
  }

  /** Appending page m's named files to files named after pages before m keeps the naming and the order. */
  lemma NamedFilesAppend(prefix: string, m: nat, ws: seq<CsvWrite>, ps: seq<CsvWrite>,
                         fs: seq<(nat, nat)>, qs: seq<(nat, nat)>)
    requires m >= 1 && |fs| == |ws| && |qs| == |ps|
    requires forall j :: 0 <= j < |fs| ==>
               1 <= fs[j].0 < m && ws[j].path == CsvPath(prefix, fs[j].0, fs[j].1)
    requires forall a, b :: 0 <= a < b < |fs| ==> fs[a].0 < fs[b].0 || (fs[a].0 == fs[b].0 && fs[a].1 < fs[b].1)
    requires forall j :: 0 <= j < |qs| ==> qs[j].0 == m && ps[j].path == CsvPath(prefix, m, qs[j].1)
    requires forall a, b :: 0 <= a < b < |qs| ==> qs[a].1 < qs[b].1
    ensures |fs + qs| == |ws + ps|
    ensures forall j :: 0 <= j < |fs + qs| ==>
              1 <= (fs + qs)[j].0 <= m && (ws + ps)[j].path == CsvPath(prefix, (fs + qs)[j].0, (fs + qs)[j].1)
    ensures forall a, b :: 0 <= a < b < |fs + qs| ==>
              (fs + qs)[a].0 < (fs + qs)[b].0 || ((fs + qs)[a].0 == (fs + qs)[b].0 && (fs + qs)[a].1 < (fs + qs)[b].1)
  {
    forall j | 0 <= j < |fs + qs|
      ensures 1 <= (fs + qs)[j].0 <= m && (ws + ps)[j].path == CsvPath(prefix, (fs + qs)[j].0, (fs + qs)[j].1)
    {
      if j < |fs| {
        assert (fs + qs)[j] == fs[j] && (ws + ps)[j] == ws[j];
      } else {
        assert (fs + qs)[j] == qs[j - |fs|] && (ws + ps)[j] == ps[j - |fs|];
      }
    }
    forall a, b | 0 <= a < b < |fs + qs|
      ensures (fs + qs)[a].0 < (fs + qs)[b].0 || ((fs + qs)[a].0 == (fs + qs)[b].0 && (fs + qs)[a].1 < (fs + qs)[b].1)
    {
      if b < |fs| {
        assert (fs + qs)[a] == fs[a] && (fs + qs)[b] == fs[b];
      } else if a < |fs| {
        assert (fs + qs)[a] == fs[a] && (fs + qs)[b] == qs[b - |fs|];
      } else {
        assert (fs + qs)[a] == qs[a - |fs|] && (fs + qs)[b] == qs[b - |fs|];
      }
    }
  }

  /** With a falsy `output_csv` no file is named. */
  lemma {:induction false} NoFileNumbersWhenFalsy(outputCsv: Option<string>, pdf: seq<PdfPage>)
    requires !Truthy(outputCsv)
    ensures FileNumbers(outputCsv, pdf) == []
  {
    if pdf != [] {
      NoFileNumbersWhenFalsy(outputCsv, pdf[..|pdf| - 1]);
    }
  }

  /**
   * Every file written is named after its page and table number; the pages are in range
   * and the (page, table) pairs strictly increase in writing order.
   */
  lemma {:induction false} FileNumbersNameFiles(outputCsv: Option<string>, pdf: seq<PdfPage>)
    ensures |FileNumbers(outputCsv, pdf)| == |AllWrites(outputCsv, pdf)|
    ensures forall j :: 0 <= j < |FileNumbers(outputCsv, pdf)| ==>
              Truthy(outputCsv) && 1 <= FileNumbers(outputCsv, pdf)[j].0 <= |pdf| &&
              AllWrites(outputCsv, pdf)[j].path ==
                CsvPath(outputCsv.value, FileNumbers(outputCsv, pdf)[j].0, FileNumbers(outputCsv, pdf)[j].1)
    ensures forall a, b :: 0 <= a < b < |FileNumbers(outputCsv, pdf)| ==>
              FileNumbers(outputCsv, pdf)[a].0 < FileNumbers(outputCsv, pdf)[b].0 ||
              (FileNumbers(outputCsv, pdf)[a].0 == FileNumbers(outputCsv, pdf)[b].0 &&
               FileNumbers(outputCsv, pdf)[a].1 < FileNumbers(outputCsv, pdf)[b].1)
  {
    if pdf != [] {
      var m := |pdf|;
      var init := pdf[..m - 1];
      var ts := pdf[m - 1].tables;
      FileNumbersNameFiles(outputCsv, init);
      PageFileNumbersNameFiles(outputCsv, m, ts);
      var ws, ps := AllWrites(outputCsv, init), PageWrites(outputCsv, m, ts);
      var fs, qs := FileNumbers(outputCsv, init), PageFileNumbers(outputCsv, m, ts);
      assert AllWrites(outputCsv, pdf) == ws + ps;
      assert FileNumbers(outputCsv, pdf) == fs + qs;
      if Truthy(outputCsv) {
        NamedFilesAppend(outputCsv.value, m, ws, ps, fs, qs);
      } else {
        NoFileNumbersWhenFalsy(outputCsv, pdf);
      }
    }
  }

  /** No two files written have the same path, so no CSV file overwrites another. */
  lemma AllWritesDistinct(outputCsv: Option<string>, pdf: seq<PdfPage>)
    ensures forall a, b :: 0 <= a < b < |AllWrites(outputCsv, pdf)| ==>
              AllWrites(outputCsv, pdf)[a].path != AllWrites(outputCsv, pdf)[b].path
  {
    FileNumbersNameFiles(outputCsv, pdf);
    var ws, fs := AllWrites(outputCsv, pdf), FileNumbers(outputCsv, pdf);
    forall a, b | 0 <= a < b < |ws| ensures ws[a].path != ws[b].path {
      if ws[a].path == ws[b].path {
        CsvPathInjective(outputCsv.value, fs[a].0, fs[a].1, fs[b].0, fs[b].1);
      }
    }
  }

  /** Different pages get different titles, and no title contains `_`. */
  lemma PageTitleInjective(a: nat, b: nat)
    ensures forall i :: 0 <= i < |PageTitle(a)| ==> PageTitle(a)[i] != '_'
    ensures PageTitle(a) == PageTitle(b) ==> a == b
  {
    if PageTitle(a) == PageTitle(b) {
      assert NatToString(a) == PageTitle(a)[5..];
      assert NatToString(b) == PageTitle(b)[5..];
      NatToStringInjective(a, b);
    }
  }
}
