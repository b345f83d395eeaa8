/**
 * The dictionaries the write path passes between stages, as datatypes.
 */
module Records {
  import opened Outcomes

  /** A pdfplumber table cell: text, or `None` for an empty cell. */
  type Cell = Option<string>
  type Row = seq<Cell>

  /** A table as pdfplumber returns it: a list of rows, possibly empty. */
  type RawTable = seq<Row>

  /** A pandas DataFrame: column labels and body rows. */
  datatype Table = Table(columns: Row, rows: seq<Row>)

  /** `pd.DataFrame()`: no columns, no rows. */
  const EmptyFrame := Table([], [])

  /** `pd.DataFrame(table[1:], columns=table[0])`: row 0 is the header, the rest is the body. */
  function Frame(t: RawTable): (f: Table)
    requires t != []
    ensures [f.columns] + f.rows == t
  {
    Table(t[0], t[1..])
  }

  /** `df.head()`: the first five body rows under the same header. */
  function Head(t: Table): Table {
    Table(t.columns, if |t.rows| < 5 then t.rows else t.rows[..5])
  }

  /**
   * A page record or a chunk: the `{"title", "text", "page_labels", "tables"}` dictionary,
   * with the optional `"id"` key the loader honours.
   */
  datatype Doc = Doc(id: Option<string>, title: string, text: string, pageLabels: seq<nat>, tables: seq<Table>)

  /** One page of an opened PDF: what `page.extract_text()` and `page.extract_tables()` return. */
  datatype PdfPage = PdfPage(text: Option<string>, tables: seq<RawTable>)
}
