/** The row stream of the REST driver (`driver/src/rest_api.rs`): rows are taken from
two buffers, and the next page is asked for while a row is still held back. */
module RowStream {
  import opened Results
  import opened Schema
  import opened Pages
  import ValueRoundTrip

  datatype RowsState = RowsState(
    pages: PagesState, schema: seq<DataType>, data: seq<RawRow>, rows: seq<Row>, stats: Option<nat>)

  /** What one poll gives: a row made of text or of a batch, statistics, an error. */
  datatype Emit =
    | Waiting
    | End
    | Fault
    | Stats(stats: nat)
    | TextRow(raw: RawRow, decoded: Result<Row>)
    | BatchRow(row: Row)

  /** The rows of the batches appended to `rows`, up to one that cannot be decoded. */
  function Extended(rows: seq<Row>, batches: seq<Batch>): (seq<Row>, bool)
    decreases |batches|
  {
    if batches == [] then (rows, true)
    else if batches[0].rows.Err? then (rows, false)
    else Extended(rows + batches[0].rows.value, batches[1..])
  }

  /** The schema, if it is not known yet, from the page. */
  function SchemaFrom(schema: seq<DataType>, page: Page): Result<seq<DataType>> {
    if schema != [] then Ok(schema)
    else if page.rawSchema != [] then SchemaOf(page.rawSchema)
    else if page.batches != [] then page.batches[0].schema
    else Ok(schema)
  }

  /** A page has come: its rows join a buffer, and its statistics are given. */
  function TakePage(st: RowsState, page: Page): (RowsState, Emit) {
    match SchemaFrom(st.schema, page)
    case Err(_) => (st, Emit.Fault)
    case Ok(schema) =>
      if page.batches == [] then (st.(schema := schema, data := st.data + page.data), Stats(page.stats))
      else
        var (rows, decoded) := Extended(st.rows, page.batches);
        (st.(schema := schema, rows := rows), if decoded then Stats(page.stats) else Emit.Fault)
  }

  function PopText(st: RowsState): (RowsState, Emit)
    requires st.data != []
  {
    (st.(data := st.data[1..]), TextRow(st.data[0], ValueRoundTrip.FromRawRow(st.schema, st.data[0])))
  }

  function PopBatch(st: RowsState): (RowsState, Emit)
    requires st.rows != []
  {
    (st.(rows := st.rows[1..]), BatchRow(st.rows[0]))
  }

  function PollRows(st: RowsState): (RowsState, Emit) {
    if st.stats.Some? then (st.(stats := None), Stats(st.stats.value))
    else if |st.data| > 1 then PopText(st)
    else if |st.rows| > 1 then PopBatch(st)
    else
      var (pages, poll) := PollPages(st.pages);
      var polled := st.(pages := pages);
      match poll
      case Got(page) => TakePage(polled, page)
      case Fault => (polled, Emit.Fault)
      case Pending => (polled, Waiting)
      case Done =>
        if st.rows != [] then PopBatch(polled)
        else if st.data != [] then PopText(polled)
        else (polled, End)
  }

  /** `RestAPIRows::from_pages`. */
  function FromPages(pages: PagesState): Result<RowsState> {
    var (started, schema) :- SchemaAwaited(pages, true);
    Ok(RowsState(started, schema, [], [], None))
  }

  /** The stream as the source holds it. */
  class RestApiRows {
    const pages: PageStream
    var schema: seq<DataType>
    var data: seq<RawRow>
    var rows: seq<Row>
    var stats: Option<nat>

    function State(): RowsState
      reads this, pages
    {
      RowsState(pages.State(), schema, data, rows, stats)
    }

    constructor (pages: PageStream, schema: seq<DataType>)
      ensures this.pages == pages
      ensures State() == RowsState(pages.State(), schema, [], [], None)
    {
      this.pages := pages;
      this.schema := schema;
      data, rows, stats := [], [], None;
    }

    method PopTextRow() returns (r: Emit)
      requires data != []
      modifies this
      ensures (State(), r) == PopText(old(State()))
    {
      r := TextRow(data[0], ValueRoundTrip.FromRawRow(schema, data[0]));
      data := data[1..];
    }

    method PopBatchRow() returns (r: Emit)
      requires rows != []
      modifies this
      ensures (State(), r) == PopBatch(old(State()))
    {
      r := BatchRow(rows[0]);
      rows := rows[1..];
    }

    /** Decodes the batches one by one, extending `rows` as it goes. */
    method AddBatches(batches: seq<Batch>) returns (decoded: bool)
      modifies this
      ensures State() == old(State()).(rows := rows)
      ensures (rows, decoded) == Extended(old(rows), batches)
    {
      assert batches[0..] == batches;
      for i := 0 to |batches|
        invariant State() == old(State()).(rows := rows)
        invariant Extended(rows, batches[i..]) == Extended(old(rows), batches)
      {
        assert batches[i..][1..] == batches[i + 1..];
        if batches[i].rows.Err? {
          return false;
        }
        rows := rows + batches[i].rows.value;
      }
      decoded := true;
    }

    method AddPage(page: Page) returns (r: Emit)
      modifies this
      ensures (State(), r) == TakePage(old(State()), page)
    {
      var known := SchemaFrom(schema, page);
      if known.Err? {
        return Emit.Fault;
      }
      schema := known.value;
      if page.batches == [] {
        data := data + page.data;
        return Stats(page.stats);
      }
      var decoded := AddBatches(page.batches);
      r := if decoded then Stats(page.stats) else Emit.Fault;
    }

    method PollNext() returns (r: Emit)
      modifies this, pages
      ensures (State(), r) == PollRows(old(State()))
    {
      hide PollPages, SchemaFrom, Extended;
      match stats {
        case Some(ss) =>
          stats := None;
          return Stats(ss);
        case None =>
      }
      if |data| > 1 {
        r := PopTextRow();
        return;
      } else if |rows| > 1 {
        r := PopBatchRow();
        return;
      }
      var poll := pages.PollNext();
      match poll
      case Got(page) => r := AddPage(page);
      case Fault => r := Emit.Fault;
      case Pending => r := Waiting;
      case Done =>
        if rows != [] {
          r := PopBatchRow();
        } else if data != [] {
          r := PopTextRow();
        } else {
          r := End;
        }
    }
  }
}
