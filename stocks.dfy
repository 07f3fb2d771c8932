/**
  The stock utilities: the CIK-to-ticker mapping (local filing folders joined
  with the exchange JSON list first and the ticker text file as fallback), the
  IPO-date update of the consolidated stock list, and the selection and batch
  saving of daily price downloads. Directory listings, the JSON and CSV
  readers and the market-data service are parameters.
*/
module Stocks {
  import opened Base
  import opened Text

  // ---------------------------------------------------------------------------
  // CIK normalisation

  /** Every CIK is compared as a string of at least ten characters, zero-padded on the left. */
  const CikWidth: nat := 10

  /** The ticker given to a CIK that no source knows. */
  const NotFound: string := "Not Found"

  /** A filing folder's name as a CIK: int() of the name, written with at least ten digits. */
  function FolderCik(folder: string): (r: Result<string>)
    ensures r.Raised? <==> ParseInt(folder).None?
    ensures r.Raised? ==> r.exception == "ValueError"
    ensures r.Ok? ==> |r.value| >= CikWidth && ParseInt(r.value) == ParseInt(folder)
  {
    match ParseInt(folder)
    case None => Raised("ValueError")
    case Some(i) =>
      FormatPaddedRoundTrip(i, CikWidth);
      Ok(FormatPadded(i, CikWidth))
  }

  /** The CIKs of all folders, in listing order; a name that is not an integer raises ValueError. */
  function FolderCiks(folders: seq<string>): (r: Result<seq<string>>)
    ensures r.Raised? <==> exists i :: 0 <= i < |folders| && ParseInt(folders[i]).None?
    ensures r.Raised? ==> r.exception == "ValueError"
    ensures r.Ok? ==> |r.value| == |folders| && forall i :: 0 <= i < |folders| ==> Ok(r.value[i]) == FolderCik(folders[i])
  {
    Traverse(FolderCik, folders)
  }

  /** A CIK as the JSON list gives it: a number or a string. */
  datatype CikValue = IntCik(i: int) | StrCik(s: string)

  /** A number is written with ten digits, a string zero-filled to ten characters. */
  function JsonCik(v: CikValue): string {
    match v
    case IntCik(i) => FormatPadded(i, CikWidth)
    case StrCik(s) => ZFill(s, CikWidth)
  }

  /** The ticker text file's CIKs are strings, zero-filled to ten characters. */
  function TxtCik(s: string): string {
    ZFill(s, CikWidth)
  }

  /**
    The three sources agree on a company: its folder name, its number in the
    JSON list, the same number as a string there and in the text file all
    give one ten-character CIK that reads back as the number.
  */
  lemma CikAgreement(i: int)
    ensures FolderCik(IntToString(i)) == Ok(JsonCik(IntCik(i)))
    ensures JsonCik(IntCik(i)) == JsonCik(StrCik(IntToString(i))) == TxtCik(IntToString(i))
    ensures |JsonCik(IntCik(i))| >= CikWidth && ParseInt(JsonCik(IntCik(i))) == Some(i)
  {
    IntToStringRoundTrip(i);
    FormatPaddedIsZFill(i, CikWidth);
    FormatPaddedRoundTrip(i, CikWidth);
  }

  // ---------------------------------------------------------------------------
  // The CIK-to-ticker mapping

  /** A record of the JSON "data" list, its four fields taken as cik, ticker, name, exchange. */
  datatype JsonRecord = JsonRecord(cik: CikValue, ticker: Option<string>, name: Option<string>, exchange: Option<string>)

  /** A row with a normalised CIK: of the JSON table, or of the left join (ticker None where missing). */
  datatype JsonRow = JsonRow(cik: string, ticker: Option<string>, name: Option<string>, exchange: Option<string>)

  /** A line of the ticker text file: ticker, then CIK. */
  datatype TxtRecord = TxtRecord(ticker: string, cik: string)

  /** A row of the output, columns cik, name, ticker, exchange. */
  datatype MappingRow = MappingRow(cik: string, name: Option<string>, ticker: string, exchange: Option<string>)

  function NormaliseJson(records: seq<JsonRecord>): (rows: seq<JsonRow>)
    ensures |rows| == |records|
  {
    seq(|records|, i requires 0 <= i < |records| =>
      JsonRow(JsonCik(records[i].cik), records[i].ticker, records[i].name, records[i].exchange))
  }

  function NormaliseTxt(records: seq<TxtRecord>): (rows: seq<TxtRecord>)
    ensures |rows| == |records|
  {
    seq(|records|, i requires 0 <= i < |records| => TxtRecord(records[i].ticker, TxtCik(records[i].cik)))
  }

  /** The JSON rows of one CIK, in table order. */
  function JsonMatches(c: string, json: seq<JsonRow>): seq<JsonRow> {
    FilterMap((r: JsonRow) => if r.cik == c then Some(r) else None, json)
  }

  /** The left join's rows for one CIK: its JSON rows, or one row with no ticker, name or exchange. */
  function LeftRows(c: string, json: seq<JsonRow>): seq<JsonRow> {
    var matches := JsonMatches(c, json);
    if matches == [] then [JsonRow(c, None, None, None)] else matches
  }

  /** my_ciks_df.merge(json_df, how="left"): the local CIKs in order, each with its JSON rows. */
  function MergedJson(ciks: seq<string>, json: seq<JsonRow>): seq<JsonRow> {
    FlatMap((c: string) => LeftRows(c, json), ciks)
  }

  /** The joined rows that have a ticker, as output rows. */
  function FoundRows(merged: seq<JsonRow>): seq<MappingRow> {
    FilterMap((r: JsonRow) => if r.ticker.Some? then Some(MappingRow(r.cik, r.name, r.ticker.value, r.exchange)) else None, merged)
  }

  /** The distinct values of a sequence, in order of first appearance. */
  function Unique(xs: seq<string>): (r: seq<string>)
    ensures forall x :: x in r <==> x in xs
    ensures forall i, j :: 0 <= i < j < |r| ==> r[i] != r[j]
  {
    if xs == [] then []
    else
      var init := Unique(xs[..|xs| - 1]);
      if xs[|xs| - 1] in init then init else init + [xs[|xs| - 1]]
  }

  /** The CIKs of the joined rows without a ticker, each once, in order of first appearance. */
  function NotFoundCiks(merged: seq<JsonRow>): seq<string> {
    Unique(FilterMap((r: JsonRow) => if r.ticker.None? then Some(r.cik) else None, merged))
  }

  /** The fallback rows of one CIK: one per text-file line of that CIK, or one "Not Found" row. */
  function TxtRows(c: string, txt: seq<TxtRecord>): seq<MappingRow> {
    var matches := FilterMap((t: TxtRecord) => if t.cik == c then Some(MappingRow(c, None, t.ticker, None)) else None, txt);
    if matches == [] then [MappingRow(c, None, NotFound, None)] else matches
  }

  function FallbackRows(notFound: seq<string>, txt: seq<TxtRecord>): seq<MappingRow> {
    FlatMap((c: string) => TxtRows(c, txt), notFound)
  }

  /** The mapping: every joined row with a JSON ticker, then the fallback rows of the CIKs without one. */
  function MergeMapping(ciks: seq<string>, json: seq<JsonRow>, txt: seq<TxtRecord>): seq<MappingRow> {
    var merged := MergedJson(ciks, json);
    FoundRows(merged) + FallbackRows(NotFoundCiks(merged), txt)
  }

  /** Whether a local CIK gets fallback rows: the JSON list has no row for it, or a row for it without a ticker. */
  predicate NeedsFallback(c: string, json: seq<JsonRow>) {
    (forall i :: 0 <= i < |json| ==> json[i].cik != c) || exists i :: 0 <= i < |json| && json[i].cik == c && json[i].ticker.None?
  }

  /** An output row that is a JSON row of a local CIK. */
  predicate JsonBacked(row: MappingRow, ciks: seq<string>, json: seq<JsonRow>) {
    row.cik in ciks && exists i :: 0 <= i < |json| && json[i] == JsonRow(row.cik, Some(row.ticker), row.name, row.exchange)
  }

  /** An output row that is a fallback row: no name or exchange, the ticker of a text-file line, or "Not Found" when there is none. */
  predicate FallbackBacked(row: MappingRow, ciks: seq<string>, json: seq<JsonRow>, txt: seq<TxtRecord>) {
    row.cik in ciks && NeedsFallback(row.cik, json) && row.name.None? && row.exchange.None?
    && ((exists j :: 0 <= j < |txt| && txt[j] == TxtRecord(row.ticker, row.cik))
        || (row.ticker == NotFound && forall j :: 0 <= j < |txt| ==> txt[j].cik != row.cik))
  }

  /** The left join's rows for one CIK are its JSON rows, or the empty row when it has none. */
  lemma LeftRowsMembers(c: string, json: seq<JsonRow>, r: JsonRow)
    ensures r in LeftRows(c, json) <==>
      (r.cik == c && exists i :: 0 <= i < |json| && json[i] == r)
      || (r == JsonRow(c, None, None, None) && forall i :: 0 <= i < |json| ==> json[i].cik != c)
  {
    var pick := (r': JsonRow) => if r'.cik == c then Some(r') else None;
    FilterMapMembers(pick, json, r);
    if forall i :: 0 <= i < |json| ==> json[i].cik != c {
      FilterMapNone(pick, json);
    } else {
      var i :| 0 <= i < |json| && json[i].cik == c;
      FilterMapMembers(pick, json, json[i]);
    }
  }

  /** A joined row for c without a ticker exists exactly when c is local and needs the fallback. */
  lemma MergedWithoutTicker(ciks: seq<string>, json: seq<JsonRow>, c: string)
    ensures (exists r :: r in MergedJson(ciks, json) && r.cik == c && r.ticker.None?) <==> c in ciks && NeedsFallback(c, json)
  {
    var rows := (d: string) => LeftRows(d, json);
    if exists r :: r in MergedJson(ciks, json) && r.cik == c && r.ticker.None? {
      var r :| r in MergedJson(ciks, json) && r.cik == c && r.ticker.None?;
      FlatMapMembers(rows, ciks, r);
      var i :| 0 <= i < |ciks| && r in LeftRows(ciks[i], json);
      LeftRowsMembers(ciks[i], json, r);
    }
    if c in ciks && NeedsFallback(c, json) {
      var i :| 0 <= i < |ciks| && ciks[i] == c;
      var r := if forall j :: 0 <= j < |json| ==> json[j].cik != c then JsonRow(c, None, None, None)
        else var j :| 0 <= j < |json| && json[j].cik == c && json[j].ticker.None?; json[j];
      LeftRowsMembers(c, json, r);
      FlatMapMembers(rows, ciks, r);
    }
  }

  lemma FoundRowsMembers(merged: seq<JsonRow>, row: MappingRow)
    ensures row in FoundRows(merged) <==> JsonRow(row.cik, Some(row.ticker), row.name, row.exchange) in merged
  {
    var f := (r: JsonRow) => if r.ticker.Some? then Some(MappingRow(r.cik, r.name, r.ticker.value, r.exchange)) else None;
    FilterMapMembers(f, merged, row);
    var r := JsonRow(row.cik, Some(row.ticker), row.name, row.exchange);
    if r in merged {
      var i :| 0 <= i < |merged| && merged[i] == r;
      assert f(merged[i]) == Some(row);
    }
  }

  lemma NotFoundMembers(merged: seq<JsonRow>, c: string)
    ensures c in NotFoundCiks(merged) <==> exists r :: r in merged && r.cik == c && r.ticker.None?
  {
    var f := (r: JsonRow) => if r.ticker.None? then Some(r.cik) else None;
    FilterMapMembers(f, merged, c);
    if exists r :: r in merged && r.cik == c && r.ticker.None? {
      var r :| r in merged && r.cik == c && r.ticker.None?;
      var i :| 0 <= i < |merged| && merged[i] == r;
      assert f(merged[i]) == Some(c);
    }
  }

  /** The fallback rows of one CIK are its text-file lines, or the "Not Found" row when it has none. */
  lemma TxtRowsMembers(c: string, txt: seq<TxtRecord>, row: MappingRow)
    ensures row in TxtRows(c, txt) <==>
      (row.cik == c && row.name.None? && row.exchange.None? && exists j :: 0 <= j < |txt| && txt[j] == TxtRecord(row.ticker, c))
      || (row == MappingRow(c, None, NotFound, None) && forall j :: 0 <= j < |txt| ==> txt[j].cik != c)
  {
    var f := (t: TxtRecord) => if t.cik == c then Some(MappingRow(c, None, t.ticker, None)) else None;
    FilterMapMembers(f, txt, row);
    if forall j :: 0 <= j < |txt| ==> txt[j].cik != c {
      FilterMapNone(f, txt);
    } else {
      var j :| 0 <= j < |txt| && txt[j].cik == c;
      FilterMapMembers(f, txt, f(txt[j]).value);
    }
    if row.cik == c && row.name.None? && row.exchange.None? && exists j :: 0 <= j < |txt| && txt[j] == TxtRecord(row.ticker, c) {
      var j :| 0 <= j < |txt| && txt[j] == TxtRecord(row.ticker, c);
      assert f(txt[j]) == Some(row);
    }
  }

  /** Every JSON row of a local CIK that has a ticker is in the mapping with its ticker, name and exchange. */
  lemma JsonRowsKept(ciks: seq<string>, json: seq<JsonRow>, txt: seq<TxtRecord>, c: string, i: nat)
    requires c in ciks && i < |json| && json[i].cik == c && json[i].ticker.Some?
    ensures MappingRow(c, json[i].name, json[i].ticker.value, json[i].exchange) in MergeMapping(ciks, json, txt)
  {
    var row := MappingRow(c, json[i].name, json[i].ticker.value, json[i].exchange);
    assert JsonRow(row.cik, Some(row.ticker), row.name, row.exchange) == json[i];
    LeftRowsMembers(c, json, json[i]);
    FlatMapMembers((d: string) => LeftRows(d, json), ciks, json[i]);
    FoundRowsMembers(MergedJson(ciks, json), row);
  }

  /**
    A local CIK that needs the fallback gets one row per text-file line of
    that CIK, without name or exchange, or a "Not Found" row when the text
    file has no line for it.
  */
  lemma FallbackKept(ciks: seq<string>, json: seq<JsonRow>, txt: seq<TxtRecord>, c: string)
    requires c in ciks && NeedsFallback(c, json)
    ensures forall j :: 0 <= j < |txt| && txt[j].cik == c ==> MappingRow(c, None, txt[j].ticker, None) in MergeMapping(ciks, json, txt)
    ensures (forall j :: 0 <= j < |txt| ==> txt[j].cik != c) ==> MappingRow(c, None, NotFound, None) in MergeMapping(ciks, json, txt)
  {
    var merged := MergedJson(ciks, json);
    MergedWithoutTicker(ciks, json, c);
    NotFoundMembers(merged, c);
    var rows := (d: string) => TxtRows(d, txt);
    forall j | 0 <= j < |txt| && txt[j].cik == c
      ensures MappingRow(c, None, txt[j].ticker, None) in MergeMapping(ciks, json, txt)
    {
      TxtRowsMembers(c, txt, MappingRow(c, None, txt[j].ticker, None));
      FlatMapMembers(rows, NotFoundCiks(merged), MappingRow(c, None, txt[j].ticker, None));
    }
    if forall j :: 0 <= j < |txt| ==> txt[j].cik != c {
      TxtRowsMembers(c, txt, MappingRow(c, None, NotFound, None));
      FlatMapMembers(rows, NotFoundCiks(merged), MappingRow(c, None, NotFound, None));
    }
  }

  /**
    Every row of the mapping is accounted for, and in order: the first rows
    are JSON rows of local CIKs, all the rows after them fallback rows of
    local CIKs that need one.
  */
  lemma MappingSound(ciks: seq<string>, json: seq<JsonRow>, txt: seq<TxtRecord>)
    ensures var m := MergeMapping(ciks, json, txt);
      var n := |FoundRows(MergedJson(ciks, json))|;
      n <= |m| && (forall k :: 0 <= k < n ==> JsonBacked(m[k], ciks, json))
      && (forall k :: n <= k < |m| ==> FallbackBacked(m[k], ciks, json, txt))
  {
    var merged := MergedJson(ciks, json);
    var found, fallback := FoundRows(merged), FallbackRows(NotFoundCiks(merged), txt);
    var m := found + fallback;
    forall k | 0 <= k < |found| ensures JsonBacked(m[k], ciks, json) {
      var row := m[k];
      assert row == found[k];
      FoundRowsMembers(merged, row);
      var r := JsonRow(row.cik, Some(row.ticker), row.name, row.exchange);
      FlatMapMembers((d: string) => LeftRows(d, json), ciks, r);
      var i :| 0 <= i < |ciks| && r in LeftRows(ciks[i], json);
      LeftRowsMembers(ciks[i], json, r);
    }
    forall k | |found| <= k < |m| ensures FallbackBacked(m[k], ciks, json, txt) {
      var row := m[k];
      assert row == fallback[k - |found|];
      FlatMapMembers((d: string) => TxtRows(d, txt), NotFoundCiks(merged), row);
      var i :| 0 <= i < |NotFoundCiks(merged)| && row in TxtRows(NotFoundCiks(merged)[i], txt);
      var c := NotFoundCiks(merged)[i];
      TxtRowsMembers(c, txt, row);
      NotFoundMembers(merged, c);
      MergedWithoutTicker(ciks, json, c);
    }
  }

  /** Every local CIK has at least one row in the mapping. */
  lemma EveryCikMapped(ciks: seq<string>, json: seq<JsonRow>, txt: seq<TxtRecord>, c: string)
    requires c in ciks
    ensures exists row :: row in MergeMapping(ciks, json, txt) && row.cik == c
  {
    if exists i :: 0 <= i < |json| && json[i].cik == c && json[i].ticker.Some? {
      var i :| 0 <= i < |json| && json[i].cik == c && json[i].ticker.Some?;
      JsonRowsKept(ciks, json, txt, c, i);
    } else {
      FallbackKept(ciks, json, txt, c);
      if exists j :: 0 <= j < |txt| && txt[j].cik == c {
        var j :| 0 <= j < |txt| && txt[j].cik == c;
        assert MappingRow(c, None, txt[j].ticker, None) in MergeMapping(ciks, json, txt);
      } else {
        assert MappingRow(c, None, NotFound, None) in MergeMapping(ciks, json, txt);
      }
    }
  }

  /**
    generate_cik_ticker_mapping with the JSON module imported: the folder
    CIKs, then the JSON file (its "data" list, missing or empty raising
    ValueError), then the text file, then the merge. A missing file raises
    FileNotFoundError.
  */
  function GenerateMapping(folders: seq<string>, files: map<string, string>, jsonFile: string, txtFile: string,
                           jsonData: string -> Option<seq<JsonRecord>>, txtLines: string -> seq<TxtRecord>): (r: Result<seq<MappingRow>>)
    ensures r.Ok? <==> (FolderCiks(folders).Ok? && jsonFile in files && txtFile in files
      && jsonData(files[jsonFile]).Some? && jsonData(files[jsonFile]).value != [])
    ensures r.Ok? ==> r.value == MergeMapping(FolderCiks(folders).value, NormaliseJson(jsonData(files[jsonFile]).value),
                                                NormaliseTxt(txtLines(files[txtFile])))
    ensures FolderCiks(folders).Ok? && jsonFile in files && (jsonData(files[jsonFile]).None? || jsonData(files[jsonFile]).value == []) ==>
      r == Raised("ValueError")
  {
    match FolderCiks(folders)
    case Raised(x) => Raised(x)
    case Ok(ciks) =>
      if jsonFile !in files then Raised("FileNotFoundError")
      else
        var data := jsonData(files[jsonFile]);
        if data.None? || data.value == [] then Raised("ValueError")
        else if txtFile !in files then Raised("FileNotFoundError")
        else Ok(MergeMapping(ciks, NormaliseJson(data.value), NormaliseTxt(txtLines(files[txtFile]))))
  }

  /**
    generate_cik_ticker_mapping as written: the JSON module is used without
    being imported, so once the folders are read and the JSON file is open
    the name lookup raises NameError.
  */
  function GenerateMappingAsWritten(folders: seq<string>, files: map<string, string>, jsonFile: string): Result<seq<MappingRow>> {
    match FolderCiks(folders)
    case Raised(x) => Raised(x)
    case Ok(_) => if jsonFile !in files then Raised("FileNotFoundError") else Raised("NameError")
  }

  /**
    The function as written never produces a mapping, and it raises NameError
    on every input on which the corrected one returns a mapping.
  */
  lemma MappingNeverProduced(folders: seq<string>, files: map<string, string>, jsonFile: string, txtFile: string,
                             jsonData: string -> Option<seq<JsonRecord>>, txtLines: string -> seq<TxtRecord>)
    ensures !GenerateMappingAsWritten(folders, files, jsonFile).Ok?
    ensures GenerateMapping(folders, files, jsonFile, txtFile, jsonData, txtLines).Ok? ==>
      GenerateMappingAsWritten(folders, files, jsonFile) == Raised("NameError")
  {
  }

  /**
    Such inputs exist: a folder named by any integer (such as "320193") and
    both files present with a non-empty "data" list give NameError as written
    and a mapping once corrected.
  */
  lemma NameErrorOnOneFolder(i: int, files: map<string, string>, jsonFile: string, txtFile: string,
                             jsonData: string -> Option<seq<JsonRecord>>, txtLines: string -> seq<TxtRecord>)
    requires jsonFile in files && txtFile in files
    requires jsonData(files[jsonFile]).Some? && jsonData(files[jsonFile]).value != []
    ensures GenerateMappingAsWritten([IntToString(i)], files, jsonFile) == Raised("NameError")
    ensures GenerateMapping([IntToString(i)], files, jsonFile, txtFile, jsonData, txtLines).Ok?
  {
    CikAgreement(i);
    assert FolderCiks([IntToString(i)]).Ok?;
  }

  // ---------------------------------------------------------------------------
  // IPO dates

  /** A row of the consolidated stock list: ticker and IPO date (None where the cell is empty or the column is missing). */
  datatype StockRow = StockRow(ticker: string, ipo: Option<string>)

  /** A row still to look up: a known ticker whose IPO date is missing or "Not Found". */
  predicate NeedsIpo(r: StockRow) {
    r.ticker != NotFound && (r.ipo.None? || r.ipo == Some(NotFound))
  }

  /** The tickers to look up, one per row that needs it, in row order. */
  function IpoTickers(rows: seq<StockRow>): seq<string> {
    FilterMap((r: StockRow) => if NeedsIpo(r) then Some(r.ticker) else None, rows)
  }

  /** A ticker is looked up exactly when some row carrying it needs an IPO date. */
  lemma IpoTickersMembers(rows: seq<StockRow>, t: string)
    ensures t in IpoTickers(rows) <==> exists i :: 0 <= i < |rows| && rows[i].ticker == t && NeedsIpo(rows[i])
  {
    var f := (r: StockRow) => if NeedsIpo(r) then Some(r.ticker) else None;
    FilterMapMembers(f, rows, t);
    if exists i :: 0 <= i < |rows| && rows[i].ticker == t && NeedsIpo(rows[i]) {
      var i :| 0 <= i < |rows| && rows[i].ticker == t && NeedsIpo(rows[i]);
      assert f(rows[i]) == Some(t);
    }
  }

  /** stock_list.loc[ticker == t, 'ipo_date'] = date: every row carrying the ticker gets the date. */
  function WithIpo(rows: seq<StockRow>, t: string, date: string): (rows': seq<StockRow>)
    ensures |rows'| == |rows|
    ensures forall i :: 0 <= i < |rows| ==> rows'[i] == if rows[i].ticker == t then StockRow(t, Some(date)) else rows[i]
  {
    seq(|rows|, i requires 0 <= i < |rows| => if rows[i].ticker == t then StockRow(t, Some(date)) else rows[i])
  }

  /**
    update_ipo_dates: one lookup per ticker to process, in order, its result
    written to every row carrying that ticker. Afterwards a row still needs
    an IPO date only when the lookup for its ticker gave "Not Found".
  */
  method UpdateIpoDates(rows: seq<StockRow>, ipoDate: string -> string) returns (rows': seq<StockRow>, lookups: seq<string>)
    ensures lookups == IpoTickers(rows)
    ensures |rows'| == |rows|
    ensures forall i :: 0 <= i < |rows| ==> rows'[i].ticker == rows[i].ticker
    ensures forall i :: 0 <= i < |rows| ==>
      rows'[i].ipo == if rows[i].ticker in IpoTickers(rows) then Some(ipoDate(rows[i].ticker)) else rows[i].ipo
    ensures forall i :: 0 <= i < |rows| && NeedsIpo(rows'[i]) ==> ipoDate(rows[i].ticker) == NotFound
  {
    var tickers := IpoTickers(rows);
    rows', lookups := rows, [];
    var k := 0;
    while k < |tickers|
      invariant 0 <= k <= |tickers|
      invariant lookups == tickers[..k]
      invariant |rows'| == |rows|
      invariant forall i :: 0 <= i < |rows| ==> rows'[i].ticker == rows[i].ticker
      invariant forall i :: 0 <= i < |rows| ==>
        rows'[i].ipo == if rows[i].ticker in tickers[..k] then Some(ipoDate(rows[i].ticker)) else rows[i].ipo
    {
      var ticker := tickers[k];
      var date := ipoDate(ticker);
      assert tickers[..k + 1] == tickers[..k] + [ticker];
      rows' := WithIpo(rows', ticker, date);
      lookups := lookups + [ticker];
      k := k + 1;
    }
    assert tickers[..k] == tickers;
    forall i | 0 <= i < |rows| && NeedsIpo(rows'[i]) ensures ipoDate(rows[i].ticker) == NotFound {
      IpoTickersMembers(rows, rows[i].ticker);
    }
  }

  // ---------------------------------------------------------------------------
  // Daily prices

  /** A row of the consolidated stock list as the price download reads it; its label is its position. */
  datatype PriceRow = PriceRow(ticker: string, ipo: Option<string>)

  /** A row kept for download, with its index label. */
  datatype Pending = Pending(index: nat, ticker: string, ipo: string)

  /** The tickers that already have prices: the part before the first '.' of every ".csv" file in the output directory. */
  function Existing(outDir: map<string, string>): set<string> {
    set f | f in outDir && EndsWith(f, ".csv") :: Split(f, '.')[0]
  }

  /** A row kept for download: it has an IPO date, a known ticker, and no price file yet. */
  predicate Eligible(r: PriceRow, existing: set<string>) {
    r.ipo.Some? && r.ticker != NotFound && r.ticker !in existing
  }

  function Indexed<T>(xs: seq<T>): (ys: seq<(nat, T)>)
    ensures |ys| == |xs| && forall i :: 0 <= i < |xs| ==> ys[i] == (i, xs[i])
  {
    seq(|xs|, i requires 0 <= i < |xs| => (i, xs[i]))
  }

  function Keep(existing: set<string>): ((nat, PriceRow)) -> Option<Pending> {
    (p: (nat, PriceRow)) => if Eligible(p.1, existing) then Some(Pending(p.0, p.1.ticker, p.1.ipo.value)) else None
  }

  /** The rows kept for download, in row order, with their labels. */
  function Pendings(rows: seq<PriceRow>, existing: set<string>): seq<Pending> {
    FilterMap(Keep(existing), Indexed(rows))
  }

  /** A row is kept exactly when it is eligible; it keeps its label, ticker and IPO date. */
  lemma PendingsMembers(rows: seq<PriceRow>, existing: set<string>, p: Pending)
    ensures p in Pendings(rows, existing) <==>
      p.index < |rows| && Eligible(rows[p.index], existing) && rows[p.index] == PriceRow(p.ticker, Some(p.ipo))
  {
    FilterMapMembers(Keep(existing), Indexed(rows), p);
    if p.index < |rows| && Eligible(rows[p.index], existing) && rows[p.index] == PriceRow(p.ticker, Some(p.ipo)) {
      assert Keep(existing)(Indexed(rows)[p.index]) == Some(p);
    }
  }

  /** The price file of a downloaded ticker. */
  function FileOf(d: (string, string)): Option<(string, string)> {
    Some((d.0 + ".csv", d.1))
  }

  /** The files a batch writes, name to content; a later entry for a ticker replaces an earlier one. */
  function SavedFiles(batch: seq<(string, string)>): map<string, string> {
    LastWrites(FileOf, batch)
  }

  /** The download step of one kept row: its ticker and prices when the row has a date and the service returns data. */
  function Download(history: (string, string) -> Option<string>): Pending -> Option<(string, string)> {
    (p: Pending) => if p.ipo != NotFound && history(p.ticker, p.ipo).Some? then Some((p.ticker, history(p.ticker, p.ipo).value)) else None
  }

  /** Everything downloaded over the kept rows, in order. */
  function Downloads(pending: seq<Pending>, history: (string, string) -> Option<string>): seq<(string, string)> {
    FilterMap(Download(history), pending)
  }

  /** The tickers whose prices are requested: the kept rows whose IPO date is not "Not Found". */
  function Attempted(pending: seq<Pending>): seq<string> {
    FilterMap((p: Pending) => if p.ipo != NotFound then Some(p.ticker) else None, pending)
  }

  /** Writing a batch of price files, one after another. */
  method SaveBatch(outDir: map<string, string>, batch: seq<(string, string)>) returns (outDir': map<string, string>)
    ensures outDir' == outDir + SavedFiles(batch)
  {
    outDir' := outDir;
    var k := 0;
    while k < |batch|
      invariant 0 <= k <= |batch|
      invariant outDir' == outDir + SavedFiles(batch[..k])
    {
      var (ticker, data) := batch[k];
      assert batch[..k + 1][..k] == batch[..k] && batch[..k + 1][k] == (ticker, data);
      assert SavedFiles(batch[..k + 1]) == SavedFiles(batch[..k])[ticker + ".csv" := data];
      outDir' := outDir'[ticker + ".csv" := data];
      k := k + 1;
    }
    assert batch[..k] == batch;
  }

  /**
    The price loop as written: a row whose IPO date is "Not Found" is passed
    over; any other row is requested, and the batch is saved and emptied when
    it is full or when the row's label equals the number of kept rows less one.
  */
  function PricesAsWritten(pending: seq<Pending>, total: int, batchSize: int, history: (string, string) -> Option<string>,
                           outDir: map<string, string>, batch: seq<(string, string)>): map<string, string>
    decreases |pending|
  {
    if pending == [] then outDir
    else
      var p := pending[0];
      if p.ipo == NotFound then PricesAsWritten(pending[1..], total, batchSize, history, outDir, batch)
      else
        var got := history(p.ticker, p.ipo);
        var batch' := batch + (if got.Some? then [(p.ticker, got.value)] else []);
        if |batch'| >= batchSize || p.index == total - 1 then
          PricesAsWritten(pending[1..], total, batchSize, history, outDir + SavedFiles(batch'), [])
        else PricesAsWritten(pending[1..], total, batchSize, history, outDir, batch')
  }

  /** download_daily_stock_prices as written, from an output directory. */
  function DownloadPricesAsWritten(rows: seq<PriceRow>, outDir: map<string, string>, batchSize: int,
                                   history: (string, string) -> Option<string>): map<string, string> {
    var pending := Pendings(rows, Existing(outDir));
    PricesAsWritten(pending, |pending|, batchSize, history, outDir, [])
  }

  const Apple: string := "AAPL"
  const AppleIpo: string := "1980-12-12"

  /**
    The last partial batch can be lost: with the rows ("Not Found", date) at
    label 0 and ("AAPL", date) at label 1, batch size 100 and an empty output
    directory, only the second row is kept, so the number of kept rows less
    one is 0, never the label 1; AAPL's prices are downloaded but no file is
    written. With the final batch saved after the loop, the file is there.
  */
  lemma FinalBatchLost(history: (string, string) -> Option<string>)
    requires history(Apple, AppleIpo).Some?
    ensures Apple + ".csv" !in DownloadPricesAsWritten([PriceRow(NotFound, Some(AppleIpo)), PriceRow(Apple, Some(AppleIpo))], map[], 100, history)
    ensures var rows := [PriceRow(NotFound, Some(AppleIpo)), PriceRow(Apple, Some(AppleIpo))];
      Apple + ".csv" in map[] + SavedFiles(Downloads(Pendings(rows, Existing(map[])), history))
  {
    var rows := [PriceRow(NotFound, Some(AppleIpo)), PriceRow(Apple, Some(AppleIpo))];
    assert Existing(map[]) == {};
    var pending := Pendings(rows, {});
    var only := Pending(1, Apple, AppleIpo);
    assert Indexed(rows) == [(0, rows[0]), (1, rows[1])];
    assert Keep({})((0, rows[0])) == None;
    assert Keep({})((1, rows[1])) == Some(only);
    FilterMapSnoc(Keep({}), Indexed(rows), 0);
    FilterMapSnoc(Keep({}), Indexed(rows), 1);
    assert Indexed(rows)[..0] == [] && Indexed(rows)[..2] == Indexed(rows);
    assert pending == [only];
    var batch := [(Apple, history(Apple, AppleIpo).value)];
    assert PricesAsWritten(pending, 1, 100, history, map[], []) == PricesAsWritten([], 1, 100, history, map[], batch);
    PricesSaved(rows, map[], history, 1);
  }

  /**
    As written, when fewer rows are kept than a batch holds and no kept row's
    label is the number of kept rows less one, the loop ends with every
    download still in the batch: no price file is written at all.
  */
  lemma PartialBatchLost(rows: seq<PriceRow>, outDir: map<string, string>, batchSize: int,
                         history: (string, string) -> Option<string>)
    requires |Pendings(rows, Existing(outDir))| < batchSize
    requires forall k :: 0 <= k < |Pendings(rows, Existing(outDir))| ==>
      Pendings(rows, Existing(outDir))[k].index != |Pendings(rows, Existing(outDir))| - 1
    ensures DownloadPricesAsWritten(rows, outDir, batchSize, history) == outDir
  {
    var pending := Pendings(rows, Existing(outDir));
    NeverFlushed(pending, |pending|, batchSize, history, outDir, []);
  }

  /** The loop as written writes nothing while the batch cannot fill and no label matches the flush test. */
  lemma {:induction false} NeverFlushed(pending: seq<Pending>, total: int, batchSize: int,
                                        history: (string, string) -> Option<string>,
                                        outDir: map<string, string>, batch: seq<(string, string)>)
    requires |batch| + |pending| < batchSize
    requires forall k :: 0 <= k < |pending| ==> pending[k].index != total - 1
    ensures PricesAsWritten(pending, total, batchSize, history, outDir, batch) == outDir
    decreases |pending|
  {
    if pending != [] {
      var p := pending[0];
      var got := history(p.ticker, p.ipo);
      var batch' := batch + (if got.Some? then [(p.ticker, got.value)] else []);
      assert forall k :: 0 <= k < |pending[1..]| ==> pending[1..][k] == pending[k + 1];
      if p.ipo == NotFound {
        NeverFlushed(pending[1..], total, batchSize, history, outDir, batch);
      } else {
        NeverFlushed(pending[1..], total, batchSize, history, outDir, batch');
      }
    }
  }

  /**
    download_daily_stock_prices with the final batch saved: the kept rows in
    order, each with an IPO date other than "Not Found" requested once, the
    batch saved and emptied whenever it is full, and what is left in it saved
    after the last row. Every download ends up in a file.
  */
  method DownloadDailyStockPrices(rows: seq<PriceRow>, outDir: map<string, string>, batchSize: int,
                                  history: (string, string) -> Option<string>)
    returns (outDir': map<string, string>, requests: seq<string>)
    ensures requests == Attempted(Pendings(rows, Existing(outDir)))
    ensures outDir' == outDir + SavedFiles(Downloads(Pendings(rows, Existing(outDir)), history))
  {
    var pending := Pendings(rows, Existing(outDir));
    var attempt := (p: Pending) => if p.ipo != NotFound then Some(p.ticker) else None;
    outDir', requests := outDir, [];
    var batch: seq<(string, string)> := [];
    ghost var saved: seq<(string, string)> := [];
    var k := 0;
    while k < |pending|
      invariant 0 <= k <= |pending|
      invariant requests == FilterMap(attempt, pending[..k])
      invariant saved + batch == Downloads(pending[..k], history)
      invariant outDir' == outDir + SavedFiles(saved)
    {
      var p := pending[k];
      FilterMapSnoc(attempt, pending, k);
      FilterMapSnoc(Download(history), pending, k);
      k := k + 1;
      if p.ipo == NotFound {
        continue;
      }
      requests := requests + [p.ticker];
      var got := history(p.ticker, p.ipo);
      if got.Some? {
        batch := batch + [(p.ticker, got.value)];
      }
      if |batch| >= batchSize {
        outDir' := SaveBatch(outDir', batch);
        LastWritesAppend(FileOf, saved, batch);
        MapUnionAssoc(outDir, SavedFiles(saved), SavedFiles(batch));
        assert saved + batch + [] == saved + batch;
        saved, batch := saved + batch, [];
      }
    }
    assert pending[..k] == pending;
    outDir' := SaveBatch(outDir', batch);
    LastWritesAppend(FileOf, saved, batch);
    MapUnionAssoc(outDir, SavedFiles(saved), SavedFiles(batch));
  }

  /** A row kept for download whose prices the service returns has its file after the run. */
  lemma PricesSaved(rows: seq<PriceRow>, outDir: map<string, string>, history: (string, string) -> Option<string>, i: nat)
    requires i < |rows| && Eligible(rows[i], Existing(outDir)) && rows[i].ipo != Some(NotFound)
    requires history(rows[i].ticker, rows[i].ipo.value).Some?
    ensures rows[i].ticker + ".csv" in outDir + SavedFiles(Downloads(Pendings(rows, Existing(outDir)), history))
  {
    var p := Pending(i, rows[i].ticker, rows[i].ipo.value);
    PendingsMembers(rows, Existing(outDir), p);
    var d := (p.ticker, history(p.ticker, p.ipo).value);
    FilterMapMembers(Download(history), Pendings(rows, Existing(outDir)), d);
    var downloads := Downloads(Pendings(rows, Existing(outDir)), history);
    var j :| 0 <= j < |downloads| && downloads[j] == d;
    LastWritesMeaning(FileOf, downloads, p.ticker + ".csv");
    assert Writes(FileOf, downloads[j], p.ticker + ".csv");
  }

  /** A ticker without a '.' whose file is in the output directory is never kept for download again. */
  lemma SavedTickerNotKept(rows: seq<PriceRow>, outDir: map<string, string>, t: string)
    requires '.' !in t && t + ".csv" in outDir
    ensures forall p :: p in Pendings(rows, Existing(outDir)) ==> p.ticker != t
  {
    var parts := [t, "csv"];
    assert Join(parts, '.') == t + ".csv" by {
      assert parts[1..] == ["csv"];
    }
    JoinSplit(parts, '.');
    assert EndsWith(t + ".csv", ".csv") by {
      assert (t + ".csv")[|t + ".csv"| - 4..] == ".csv";
    }
    assert t in Existing(outDir);
    forall p | p in Pendings(rows, Existing(outDir)) ensures p.ticker != t {
      PendingsMembers(rows, Existing(outDir), p);
    }
  }
}
