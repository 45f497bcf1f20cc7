/**
 * Ingestion side of the document store (app/routers/vectorstore.py):
 * the paginated full-table read, chunk id allocation, the mapping of
 * chunks to table rows and of table rows back to documents.
 *
 * The Supabase table is a sequence of rows in store order; a range select
 * is a slice of it. The text splitter is a parameter.
 */
module VectorStore {
  import opened Wrappers
  import opened Text

  /** Rows fetched per request. */
  const PAGE_SIZE: nat := 1000

  /** Metadata key under which a chunk carries its id tag. */
  const DOC_ID_KEY: string := "doc_id"

  /** Prefix of every chunk id tag. */
  const DOC_ID_PREFIX: string := "DOC_"

  /** A LangChain document: text and string-valued metadata. */
  datatype Document = Document(pageContent: string, metadata: map<string, string>)

  // ---------------------------------------------------------------------
  // request_table
  // ---------------------------------------------------------------------

  /** The inclusive range of row positions that page `p` requests. */
  function PageRange(p: nat): (r: (nat, nat))
    ensures r.1 - r.0 + 1 == PAGE_SIZE as int
    ensures r.0 == p * PAGE_SIZE
  {
    (p * PAGE_SIZE, p * PAGE_SIZE + PAGE_SIZE - 1)
  }

  /** `select(...).range(start, end)`: rows at positions start..end inclusive that exist. */
  function SelectRange<T>(table: seq<T>, start: nat, end: nat): (page: seq<T>)
    requires start <= end + 1
    ensures |page| <= end + 1 - start
    ensures start <= |table| ==> table[..start] + page == table[..if end + 1 <= |table| then end + 1 else |table|]
    ensures end + 1 <= |table| ==> |page| == end + 1 - start
  {
    if start >= |table| then []
    else if end + 1 <= |table| then table[start..end + 1]
    else table[start..]
  }

  /** The rows that the request for page `p` returns. */
  function FetchPage<T>(table: seq<T>, p: nat): seq<T>
  {
    SelectRange(table, PageRange(p).0, PageRange(p).1)
  }

  /**
   * Fetches pages 0, 1, 2, ... and stops after the first page shorter than
   * PAGE_SIZE. Returns the rows read and the ranges requested, in order.
   */
  method RequestTable<T>(table: seq<T>) returns (all: seq<T>, ranges: seq<(nat, nat)>)
    ensures all == table
    ensures |ranges| == |table| / PAGE_SIZE + 1
    ensures forall p :: 0 <= p < |ranges| ==> ranges[p] == PageRange(p)
    ensures forall p :: 0 <= p < |ranges| - 1 ==> |FetchPage(table, p)| == PAGE_SIZE
    ensures |FetchPage(table, |ranges| - 1)| < PAGE_SIZE
    ensures |table| % PAGE_SIZE == 0 ==> FetchPage(table, |ranges| - 1) == []
  {
    all, ranges := [], [];
    var page: nat := 0;
    while true
      invariant page * PAGE_SIZE <= |table|
      invariant all == table[..page * PAGE_SIZE]
      invariant |ranges| == page
      invariant forall p :: 0 <= p < page ==> ranges[p] == PageRange(p)
      invariant forall p :: 0 <= p < page ==> |FetchPage(table, p)| == PAGE_SIZE
      decreases |table| - page * PAGE_SIZE
    {
      var startIndex := page * PAGE_SIZE;
      var endIndex := startIndex + PAGE_SIZE - 1;
      var data := SelectRange(table, startIndex, endIndex);
      assert data == FetchPage(table, page);
      ranges := ranges + [(startIndex, endIndex)];
      all := all + data;
      if |data| < PAGE_SIZE {
        assert all == table;
        assert |table| < (page + 1) * PAGE_SIZE;
        return;
      }
      page := page + 1;
    }
  }

  // ---------------------------------------------------------------------
  // docs_text_split: id allocation and numbering
  // ---------------------------------------------------------------------

  /** A value of the `doc_id` column as read back from the store. */
  datatype IdCell = IntId(n: int) | TextId(text: string) | NullId

  /** `astype(int)` on one cell: integers pass, decimal text parses, null fails. */
  function CellToInt(c: IdCell): Option<int>
  {
    match c
    case IntId(n) => Some(n)
    case TextId(t) => PyInt(t)
    case NullId => None
  }

  /** `astype(int)` on the whole column: fails as soon as one cell fails. */
  function ColumnToInts(cells: seq<IdCell>): (r: Option<seq<int>>)
    ensures r.Some? <==> forall i :: 0 <= i < |cells| ==> CellToInt(cells[i]).Some?
    ensures r.Some? ==> |r.value| == |cells| && forall i :: 0 <= i < |cells| ==> r.value[i] == CellToInt(cells[i]).value
  {
    if |cells| == 0 then Some([])
    else match (CellToInt(cells[0]), ColumnToInts(cells[1..]))
      case (Some(v), Some(vs)) => Some([v] + vs)
      case _ => None
  }

  /** The largest element of a non-empty list, as `.max()` gives it. */
  function MaxOf(vs: seq<int>): (m: int)
    requires |vs| > 0
    ensures forall i :: 0 <= i < |vs| ==> vs[i] <= m
    ensures exists i :: 0 <= i < |vs| && vs[i] == m
  {
    if |vs| == 1 then vs[0]
    else
      var rest := MaxOf(vs[1..]);
      assert forall i :: 1 <= i < |vs| ==> vs[i] == vs[1..][i - 1];
      if vs[0] >= rest then vs[0] else rest
  }

  /**
   * The first id of a new batch: the largest stored id plus one, or 1 when the
   * table is empty (the column lookup raises) or a cell does not convert.
   */
  function StartDocId(cells: seq<IdCell>): (start: int)
    ensures |cells| == 0 ==> start == 1
    ensures (exists i :: 0 <= i < |cells| && CellToInt(cells[i]).None?) ==> start == 1
    ensures |cells| > 0 && (forall i :: 0 <= i < |cells| ==> CellToInt(cells[i]).Some?) ==>
              (forall i :: 0 <= i < |cells| ==> CellToInt(cells[i]).value < start) &&
              (exists i :: 0 <= i < |cells| && start == CellToInt(cells[i]).value + 1)
  {
    if |cells| == 0 then 1
    else match ColumnToInts(cells)
      case None => 1
      case Some(vs) => MaxOf(vs) + 1
  }

  /** The id tag `"DOC_" + str(n)`. */
  function DocIdTag(n: int): string
  {
    DOC_ID_PREFIX + IntToString(n)
  }

  /** Python's `s[4:]`: empty when the text is shorter than four characters. */
  function DropPrefix4(s: string): (r: string)
    ensures |s| >= 4 ==> r == s[4..]
    ensures |s| < 4 ==> r == ""
  {
    if |s| >= 4 then s[4..] else ""
  }

  /** `int(tag[4:])`, the decoding `docs_insert_db` applies to a tag. */
  function DecodeDocId(tag: string): Option<int>
  {
    PyInt(DropPrefix4(tag))
  }

  /** Decoding a tag gives back the number it was made from. */
  lemma DocIdRoundTrip(n: int)
    ensures DecodeDocId(DocIdTag(n)) == Some(n)
  {
    assert DropPrefix4(DocIdTag(n)) == IntToString(n);
    PyIntRoundTrip(n);
  }

  /**
   * Decoding is `int()` on what follows the first four characters, so a tag
   * whose number is padded with whitespace or split by `_` still decodes
   * (as Text.PyIntSpaces and Text.PyIntSeparator show for `int()`).
   */
  lemma DecodeDocIdIsPyInt(t: string)
    ensures DecodeDocId(DOC_ID_PREFIX + t) == PyInt(t)
  {
    assert DropPrefix4(DOC_ID_PREFIX + t) == t;
  }

  /** Tags of different numbers differ. */
  lemma DocIdTagInjective(m: int, n: int)
    requires DocIdTag(m) == DocIdTag(n)
    ensures m == n
  {
    DocIdRoundTrip(m);
    DocIdRoundTrip(n);
  }

  /** A chunk with its `doc_id` metadata set to the tag of `n`. */
  function WithDocId(d: Document, n: int): (r: Document)
    ensures r.pageContent == d.pageContent
    ensures r.metadata.Keys == d.metadata.Keys + {DOC_ID_KEY}
    ensures r.metadata[DOC_ID_KEY] == DocIdTag(n)
    ensures forall k :: k in d.metadata && k != DOC_ID_KEY ==> r.metadata[k] == d.metadata[k]
  {
    d.(metadata := d.metadata[DOC_ID_KEY := DocIdTag(n)])
  }

  /** Chunk `i` tagged with `start + i`, for every chunk in splitter order. */
  function Numbered(chunks: seq<Document>, start: int): (r: seq<Document>)
    ensures |r| == |chunks|
  {
    seq(|chunks|, i requires 0 <= i < |chunks| => WithDocId(chunks[i], start + i))
  }

  /**
   * docs_text_split: reads the `doc_id` column, computes the first id,
   * splits the documents and tags the chunks consecutively from there.
   */
  method DocsTextSplit(table: seq<IdCell>, docs: seq<Document>, size: int, overlap: int, separator: string,
                       splitter: (seq<Document>, int, int, string) -> seq<Document>)
    returns (chunks: seq<Document>)
    ensures chunks == Numbered(splitter(docs, size, overlap, separator), StartDocId(table))
  {
    var column, _ := RequestTable(table);
    assert column == table;
    var startInsertDocId := StartDocId(column);
    var splitted := splitter(docs, size, overlap, separator);
    chunks := TagConsecutive(splitted, startInsertDocId);
  }

  /** The tagging loop of docs_text_split: chunk after chunk, each takes the next id. */
  method TagConsecutive(splitted: seq<Document>, start: int) returns (chunks: seq<Document>)
    ensures chunks == Numbered(splitted, start)
  {
    var startInsertDocId := start;
    chunks := [];
    for i := 0 to |splitted|
      invariant startInsertDocId == start + i
      invariant chunks == Numbered(splitted, start)[..i]
    {
      assert Numbered(splitted, start)[..i + 1] == chunks + [WithDocId(splitted[i], startInsertDocId)];
      chunks := chunks + [WithDocId(splitted[i], startInsertDocId)];
      startInsertDocId := startInsertDocId + 1;
    }
    assert chunks == Numbered(splitted, start);
  }

  /** Chunk `i` of a batch decodes to `start + i`: ids are consecutive in splitter order. */
  lemma NumberedIdsConsecutive(chunks: seq<Document>, start: int, i: int)
    requires 0 <= i < |chunks|
    ensures DecodeDocId(Numbered(chunks, start)[i].metadata[DOC_ID_KEY]) == Some(start + i)
  {
    DocIdRoundTrip(start + i);
  }

  /** The tags of one batch are pairwise distinct. */
  lemma NumberedIdsDistinct(chunks: seq<Document>, start: int, i: int, j: int)
    requires 0 <= i < |chunks| && 0 <= j < |chunks| && i != j
    ensures Numbered(chunks, start)[i].metadata[DOC_ID_KEY] != Numbered(chunks, start)[j].metadata[DOC_ID_KEY]
  {
    if Numbered(chunks, start)[i].metadata[DOC_ID_KEY] == Numbered(chunks, start)[j].metadata[DOC_ID_KEY] {
      DocIdTagInjective(start + i, start + j);
    }
  }

  /**
   * When every stored id converts, each new id is larger than every stored
   * one, so within one call a batch never reuses an id of the table that
   * call read.
   */
  lemma NewIdsAboveStored(table: seq<IdCell>, chunks: seq<Document>, i: int, k: int)
    requires forall j :: 0 <= j < |table| ==> CellToInt(table[j]).Some?
    requires 0 <= i < |chunks| && 0 <= k < |table|
    ensures var id := DecodeDocId(Numbered(chunks, StartDocId(table))[i].metadata[DOC_ID_KEY]);
            id.Some? && id.value > CellToInt(table[k]).value
  {
    NumberedIdsConsecutive(chunks, StartDocId(table), i);
  }

  /**
   * The fallback to 1 ignores the ids that did convert: a table holding id 1
   * next to a null cell gets a batch that starts at 1 again.
   */
  lemma FallbackCanReuseIds(chunks: seq<Document>)
    requires |chunks| > 0
    ensures DecodeDocId(Numbered(chunks, StartDocId([IntId(1), NullId]))[0].metadata[DOC_ID_KEY]) == Some(1)
  {
    assert CellToInt([IntId(1), NullId][1]).None?;
    NumberedIdsConsecutive(chunks, 1, 0);
  }

  // ---------------------------------------------------------------------
  // docs_insert_db
  // ---------------------------------------------------------------------

  /** A row as `docs_insert_db` builds it for the `vectorstore` table. */
  datatype InsertRow = InsertRow(docId: int, source: string, fileName: string, date: string, pageContent: string)

  /**
   * The dict literal for one chunk, evaluated key by key: a missing metadata
   * key raises KeyError, an id tag whose tail is not an integer ValueError.
   */
  function RowOf(d: Document): Result<InsertRow, PyError>
  {
    var md := d.metadata;
    if DOC_ID_KEY !in md then Err(KeyError(DOC_ID_KEY))
    else match DecodeDocId(md[DOC_ID_KEY])
      case None => Err(ValueError("invalid literal for int()"))
      case Some(n) =>
        if "source" !in md then Err(KeyError("source"))
        else if "file_name" !in md then Err(KeyError("file_name"))
        else if "date" !in md then Err(KeyError("date"))
        else Ok(InsertRow(n, md["source"], md["file_name"], md["date"], d.pageContent))
  }

  /** The rows of all chunks in order, or the error of the first chunk that fails. */
  function InsertRows(chunks: seq<Document>): (r: Result<seq<InsertRow>, PyError>)
    ensures r.Ok? ==> |r.value| == |chunks|
    ensures r.Ok? <==> forall i :: 0 <= i < |chunks| ==> RowOf(chunks[i]).Ok?
    ensures r.Ok? ==> forall i :: 0 <= i < |chunks| ==> r.value[i] == RowOf(chunks[i]).value
  {
    if |chunks| == 0 then Ok([])
    else match RowOf(chunks[0])
      case Err(e) => Err(e)
      case Ok(row) =>
        match InsertRows(chunks[1..])
        case Err(e) => Err(e)
        case Ok(rows) =>
          assert forall i :: 1 <= i < |chunks| ==> chunks[i] == chunks[1..][i - 1];
          Ok([row] + rows)
  }

  /** `rows` followed by the rows of `rest`, or the first error of `rest`. */
  function Continue(rows: seq<InsertRow>, rest: seq<Document>): Result<seq<InsertRow>, PyError>
  {
    match InsertRows(rest)
    case Err(e) => Err(e)
    case Ok(more) => Ok(rows + more)
  }

  /** One step of the row loop: the next chunk either fails or extends the rows. */
  lemma ContinueStep(rows: seq<InsertRow>, rest: seq<Document>)
    requires |rest| > 0
    ensures RowOf(rest[0]).Err? ==> Continue(rows, rest) == Err(RowOf(rest[0]).error)
    ensures RowOf(rest[0]).Ok? ==> Continue(rows, rest) == Continue(rows + [RowOf(rest[0]).value], rest[1..])
  {
    if RowOf(rest[0]).Ok? {
      match InsertRows(rest[1..])
      case Ok(more) => assert rows + ([RowOf(rest[0]).value] + more) == rows + [RowOf(rest[0]).value] + more;
      case Err(_) =>
    }
  }

  /**
   * docs_insert_db: builds one row per chunk, in chunk order, then hands the
   * whole list to one `insert(...).execute()` on the `vectorstore` table,
   * passed in as `insert`, and returns that call's response. A chunk whose
   * row cannot be built raises before anything is inserted.
   */
  method DocsInsertDb<R>(splittedDocs: seq<Document>, insert: seq<InsertRow> -> Result<R, PyError>)
    returns (response: Result<R, PyError>)
    ensures InsertRows(splittedDocs).Err? ==> response == Err(InsertRows(splittedDocs).error)
    ensures InsertRows(splittedDocs).Ok? ==> response == insert(InsertRows(splittedDocs).value)
  {
    var dictsList: seq<InsertRow> := [];
    assert splittedDocs[0..] == splittedDocs;
    assert Continue(dictsList, splittedDocs) == InsertRows(splittedDocs) by {
      match InsertRows(splittedDocs)
      case Ok(more) => assert dictsList + more == more;
      case Err(_) =>
    }
    for i := 0 to |splittedDocs|
      invariant InsertRows(splittedDocs) == Continue(dictsList, splittedDocs[i..])
    {
      assert splittedDocs[i..][1..] == splittedDocs[i + 1..];
      ContinueStep(dictsList, splittedDocs[i..]);
      match RowOf(splittedDocs[i])
      case Err(e) =>
        return Err(e);
      case Ok(row) =>
        dictsList := dictsList + [row];
    }
    assert dictsList + [] == dictsList;
    response := insert(dictsList);
  }

  /** The metadata the loader attaches to every file, which chunks inherit. */
  predicate HasFileMetadata(d: Document)
  {
    "source" in d.metadata && "file_name" in d.metadata && "date" in d.metadata
  }

  /** A tagged chunk with loader metadata always yields its row, carrying the tag's number. */
  lemma RowOfTagged(d: Document, n: int)
    requires HasFileMetadata(d)
    ensures RowOf(WithDocId(d, n)) ==
              Ok(InsertRow(n, d.metadata["source"], d.metadata["file_name"], d.metadata["date"], d.pageContent))
  {
    var md := WithDocId(d, n).metadata;
    assert md[DOC_ID_KEY] == DocIdTag(n);
    DocIdRoundTrip(n);
  }

  /**
   * Inserting a numbered batch succeeds and stores, for chunk i, the number
   * start + i next to the chunk's own source, file name, date and text.
   */
  lemma {:induction false} InsertNumberedBatch(chunks: seq<Document>, start: int)
    requires forall i :: 0 <= i < |chunks| ==> HasFileMetadata(chunks[i])
    ensures InsertRows(Numbered(chunks, start)).Ok?
    ensures forall i :: 0 <= i < |chunks| ==>
              HasFileMetadata(chunks[i]) &&
              InsertRows(Numbered(chunks, start)).value[i] ==
                InsertRow(start + i, chunks[i].metadata["source"], chunks[i].metadata["file_name"],
                          chunks[i].metadata["date"], chunks[i].pageContent)
  {
    var numbered := Numbered(chunks, start);
    forall i | 0 <= i < |chunks|
      ensures RowOf(numbered[i]) == Ok(InsertRow(start + i, chunks[i].metadata["source"],
                chunks[i].metadata["file_name"], chunks[i].metadata["date"], chunks[i].pageContent))
    {
      RowOfTagged(chunks[i], start + i);
    }
  }

  // ---------------------------------------------------------------------
  // db_to_document
  // ---------------------------------------------------------------------

  /** A row of the `vectorstore` table read with `select('*')`. */
  datatype StoredRow = StoredRow(id: int, docId: IdCell, source: string, fileName: string, date: string, pageContent: string)

  /** The row a stored insert becomes once the table assigns it an `id`. */
  function Stored(row: InsertRow, id: int): StoredRow
  {
    StoredRow(id, IntId(row.docId), row.source, row.fileName, row.date, row.pageContent)
  }

  /** The `doc_id` cells of the records, in order. */
  function IdColumn(table: seq<StoredRow>): (cells: seq<IdCell>)
    ensures |cells| == |table| && forall i :: 0 <= i < |table| ==> cells[i] == table[i].docId
  {
    seq(|table|, i requires 0 <= i < |table| => table[i].docId)
  }

  /** The dtype `pd.DataFrame` gives the `doc_id` column: `int64`, `float64` or `object`. */
  datatype ColumnKind = IntColumn | FloatColumn | ObjectColumn

  /**
   * Pandas infers one dtype for the whole column: integers alone stay
   * integers, integers beside a null become floats (the null becoming NaN),
   * and a column with text, or with nulls only, keeps its Python objects.
   */
  function ColumnKindOf(cells: seq<IdCell>): (k: ColumnKind)
    ensures k == IntColumn <==> forall i :: 0 <= i < |cells| ==> cells[i].IntId?
    ensures k == FloatColumn <==>
              (exists i :: 0 <= i < |cells| && cells[i].IntId?) &&
              (exists i :: 0 <= i < |cells| && cells[i].NullId?) &&
              (forall i :: 0 <= i < |cells| ==> !cells[i].TextId?)
  {
    if exists i :: 0 <= i < |cells| && cells[i].TextId? then ObjectColumn
    else if forall i :: 0 <= i < |cells| ==> cells[i].IntId? then IntColumn
    else if forall i :: 0 <= i < |cells| ==> cells[i].NullId? then ObjectColumn
    else FloatColumn
  }

  /**
   * `str(row['doc_id'])` for a cell of a column of kind `k`: a float prints
   * with `.0`, NaN as `nan`, an object null as `None`.
   */
  function IdText(k: ColumnKind, c: IdCell): string
  {
    match c
    case IntId(n) => if k == FloatColumn then IntToString(n) + ".0" else IntToString(n)
    case TextId(t) => t
    case NullId => if k == FloatColumn then "nan" else "None"
  }

  /** The Document built for one record of a `doc_id` column of kind `k`. */
  function DocumentOf(row: StoredRow, k: ColumnKind): Document
  {
    Document(row.pageContent, map[DOC_ID_KEY := DOC_ID_PREFIX + IdText(k, row.docId),
                                  "file_name" := row.fileName, "source" := row.source])
  }

  /**
   * db_to_document: reads the whole table and maps every record to a Document.
   * On an empty table the frame has no `id` column and `drop` raises KeyError.
   */
  method DbToDocument(table: seq<StoredRow>) returns (r: Result<seq<Document>, PyError>)
    ensures |table| == 0 ==> r == Err(KeyError("id"))
    ensures |table| > 0 ==> r.Ok? && |r.value| == |table|
    ensures |table| > 0 ==> forall i :: 0 <= i < |table| ==>
              r.value[i].pageContent == table[i].pageContent &&
              r.value[i].metadata ==
                map[DOC_ID_KEY := DOC_ID_PREFIX + IdText(ColumnKindOf(IdColumn(table)), table[i].docId),
                    "file_name" := table[i].fileName, "source" := table[i].source]
  {
    var records, _ := RequestTable(table);
    if |records| == 0 {
      return Err(KeyError("id"));
    }
    var kind := ColumnKindOf(IdColumn(records));
    r := Ok(seq(|records|, i requires 0 <= i < |records| => DocumentOf(records[i], kind)));
  }

  /** An integer cell prints as its tag's number unless the column became floats. */
  lemma IntCellText(k: ColumnKind, n: int)
    ensures IdText(k, IntId(n)) == IntToString(n) <==> k != FloatColumn
  {
    if k == FloatColumn {
      assert |IdText(k, IntId(n))| == |IntToString(n)| + 2;
    }
  }

  /**
   * Ingest and read back: a chunk tagged with n, inserted and stored under any
   * table id as row j, comes back with its text, file name and source, without
   * its date, and with the same tag exactly when the `doc_id` column did not
   * become floats, that is unless the table holds a null id and no text id.
   */
  lemma IngestReadBack(chunk: Document, n: int, id: int, table: seq<StoredRow>, j: int)
    requires HasFileMetadata(chunk) && 0 <= j < |table|
    requires RowOf(WithDocId(chunk, n)).Ok? && table[j] == Stored(RowOf(WithDocId(chunk, n)).value, id)
    ensures var back := DocumentOf(table[j], ColumnKindOf(IdColumn(table)));
            back.pageContent == chunk.pageContent &&
            back.metadata["file_name"] == chunk.metadata["file_name"] &&
            back.metadata["source"] == chunk.metadata["source"] &&
            "date" !in back.metadata &&
            (back.metadata[DOC_ID_KEY] == WithDocId(chunk, n).metadata[DOC_ID_KEY] <==>
             ColumnKindOf(IdColumn(table)) != FloatColumn)
  {
    RowOfTagged(chunk, n);
    var k := ColumnKindOf(IdColumn(table));
    IntCellText(k, n);
    var tag := DOC_ID_PREFIX + IdText(k, IntId(n));
    if tag == DocIdTag(n) {
      assert tag[|DOC_ID_PREFIX|..] == IdText(k, IntId(n));
      assert DocIdTag(n)[|DOC_ID_PREFIX|..] == IntToString(n);
    }
  }

  /**
   * One null id anywhere turns the column into floats: a stored id 1 beside
   * a null one reads back as `DOC_1.0`, and the null one as `DOC_nan`.
   */
  lemma NullIdRewritesTags(a: StoredRow, b: StoredRow)
    requires a.docId == IntId(1) && b.docId == NullId
    ensures DocumentOf(a, ColumnKindOf(IdColumn([a, b]))).metadata[DOC_ID_KEY] == "DOC_1.0"
    ensures DocumentOf(b, ColumnKindOf(IdColumn([a, b]))).metadata[DOC_ID_KEY] == "DOC_nan"
  {
    var cells := IdColumn([a, b]);
    assert cells[0].IntId? && cells[1].NullId? && !cells[0].TextId? && !cells[1].TextId?;
    assert ColumnKindOf(cells) == FloatColumn;
    assert IntToString(1) == "1";
  }
}
