/** What the row stream yields over a whole run: every row of every page, in order,
none lost and none twice, and the last one only after the last page. */
module StreamProofs {
  import opened Results
  import opened Schema
  import opened Pages
  import opened PageProofs
  import opened RowStream
  import ValueRoundTrip

  // ---------------------------------------------------------------------------
  // Every run ends
  // ---------------------------------------------------------------------------

  function RowCount(batches: seq<Batch>): nat {
    if batches == [] then 0
    else (if batches[0].rows.Ok? then |batches[0].rows.value| else 0) + RowCount(batches[1..])
  }

  /** The polls that a page is worth: its rows, and one for its statistics. */
  function PageWork(p: Page): nat {
    |p.data| + RowCount(p.batches) + 1
  }

  function ChainWork(r: Option<Reply>): nat {
    match r
    case None => 0
    case Some(Failed(delay)) => delay + 1
    case Some(Answered(delay, page, next)) => delay + 1 + PageWork(page) + ChainWork(next)
  }

  function PagesWork(st: PagesState): nat {
    (if st.firstPage.Some? then 1 + PageWork(st.firstPage.value) else 0) + ChainWork(Outstanding(st))
  }

  function Work(st: RowsState): nat {
    (if st.stats.Some? then 1 else 0) + |st.data| + |st.rows| + PagesWork(st.pages)
  }

  lemma {:induction false} PollPagesWork(st: PagesState)
    ensures var (next, poll) := PollPages(st);
            match poll
            case Pending => PagesWork(next) < PagesWork(st)
            case Fault => PagesWork(next) < PagesWork(st)
            case Got(page) => PagesWork(next) + PageWork(page) < PagesWork(st)
            case Done => PagesWork(next) <= PagesWork(st)
    decreases ChainPolls(Outstanding(st)), if st.future.None? then 1 else 0
  {
    hide PageWork;
    if st.firstPage.None? {
      match st.future {
        case Some(f) =>
          if f.wait == 0 && f.reply.Answered? && f.reply.page.data == [] && !st.needProgress {
            PollPagesWork(st.(future := None, nextUri := f.reply.next));
          }
        case None =>
          if st.nextUri.Some? {
            var reply := st.nextUri.value;
            assert reply.(delay := reply.delay) == reply;
            PollPagesWork(st.(future := Some(Future(reply.delay, reply))));
          }
      }
    }
  }

  lemma {:induction false} ExtendedCount(rows: seq<Row>, batches: seq<Batch>)
    ensures |Extended(rows, batches).0| <= |rows| + RowCount(batches)
    decreases |batches|
  {
    if batches != [] && batches[0].rows.Ok? {
      ExtendedCount(rows + batches[0].rows.value, batches[1..]);
    }
  }

  lemma {:induction false} PollRowsWork(st: RowsState)
    ensures !PollRows(st).1.End? ==> Work(PollRows(st).0) < Work(st)
  {
    hide PollPages, PagesWork, SchemaFrom, ValueRoundTrip.FromRawRow, Extended, RowCount;
    if st.stats.None? && |st.data| <= 1 && |st.rows| <= 1 {
      PollPagesWork(st.pages);
      var (pages, poll) := PollPages(st.pages);
      if poll.Got? {
        ExtendedCount(st.rows, poll.page.batches);
      }
    }
  }

  /** Everything that the stream gives until it ends. */
  function Drained(st: RowsState): seq<Emit>
    decreases Work(st)
  {
    PollRowsWork(st);
    var (next, e) := PollRows(st);
    if e.End? then [] else [e] + Drained(next)
  }

  // ---------------------------------------------------------------------------
  // What a run gives
  // ---------------------------------------------------------------------------

  /** What is given, kind by kind: rows of text and of batches and statistics, each in
  order, and how often an error and how often a pending poll is reported. */
  datatype Yield = Yield(text: seq<RawRow>, rows: seq<Row>, stats: seq<nat>, faults: nat, waits: nat)

  const NOTHING := Yield([], [], [], 0, 0)

  function Plus(a: Yield, b: Yield): Yield {
    Yield(a.text + b.text, a.rows + b.rows, a.stats + b.stats, a.faults + b.faults, a.waits + b.waits)
  }

  lemma PlusAssoc(a: Yield, b: Yield, c: Yield)
    ensures Plus(a, Plus(b, c)) == Plus(Plus(a, b), c)
    ensures Plus(NOTHING, c) == c == Plus(c, NOTHING)
  {
  }

  function OneOf(e: Emit): Yield {
    match e
    case End => NOTHING
    case Waiting => Yield([], [], [], 0, 1)
    case Fault => Yield([], [], [], 1, 0)
    case Stats(stats) => Yield([], [], [stats], 0, 0)
    case TextRow(raw, _) => Yield([raw], [], [], 0, 0)
    case BatchRow(row) => Yield([], [row], [], 0, 0)
  }

  function Given(es: seq<Emit>): Yield {
    if es == [] then NOTHING else Plus(OneOf(es[0]), Given(es[1..]))
  }

  /** The schema in a page: that of its texts, or else that of its first batch. */
  function TellsSchema(p: Page): Result<seq<DataType>> {
    if p.rawSchema != [] then SchemaOf(p.rawSchema)
    else if p.batches != [] then p.batches[0].schema
    else Ok([])
  }

  /** The rows in front of the first batch that cannot be decoded. */
  function DecodedRows(batches: seq<Batch>): seq<Row> {
    if batches == [] || batches[0].rows.Err? then [] else batches[0].rows.value + DecodedRows(batches[1..])
  }

  predicate RowsDecode(batches: seq<Batch>) {
    forall i :: 0 <= i < |batches| ==> batches[i].rows.Ok?
  }

  /** What a page gives to a stream with a schema: an error if the schema is not known and
  cannot be read from the page, and an error in place of the statistics if a batch cannot
  be decoded. A page with batches is read by its batches. */
  function PageYield(schema: seq<DataType>, p: Page): Yield {
    if schema == [] && TellsSchema(p).Err? then Yield([], [], [], 1, 0)
    else if p.batches == [] then Yield(p.data, [], [p.stats], 0, 0)
    else if RowsDecode(p.batches) then Yield([], DecodedRows(p.batches), [p.stats], 0, 0)
    else Yield([], DecodedRows(p.batches), [], 1, 0)
  }

  function SchemaAfter(schema: seq<DataType>, p: Page): seq<DataType> {
    if schema == [] && TellsSchema(p).Ok? then TellsSchema(p).value else schema
  }

  function PagesYield(schema: seq<DataType>, ps: seq<Page>): Yield
    decreases |ps|
  {
    if ps == [] then NOTHING
    else Plus(PageYield(schema, ps[0]), PagesYield(SchemaAfter(schema, ps[0]), ps[1..]))
  }

  function Buffered(st: RowsState): Yield {
    Yield(st.data, st.rows, match st.stats case Some(stats) => [stats] case None => [], 0, 0)
  }

  /** How a chain of replies ends: in one error if it fails, after all its delays. */
  function Ending(st: PagesState): Yield {
    Yield([], [], [], if Fails(Outstanding(st)) then 1 else 0, Delays(Outstanding(st)))
  }

  /** What is still to be given: what is buffered, what the pages to come give, and an
  error if the chain fails. */
  function Left(st: RowsState): Yield {
    Plus(Buffered(st), Plus(PagesYield(st.schema, ToCome(st.pages)), Ending(st.pages)))
  }

  lemma {:induction false} ExtendedIs(rows: seq<Row>, batches: seq<Batch>)
    ensures Extended(rows, batches) == (rows + DecodedRows(batches), RowsDecode(batches))
    decreases |batches|
  {
    assert rows + [] == rows;
    if batches != [] && batches[0].rows.Ok? {
      ExtendedIs(rows + batches[0].rows.value, batches[1..]);
      assert rows + batches[0].rows.value + DecodedRows(batches[1..]) == rows + DecodedRows(batches);
      assert forall i :: 1 <= i < |batches| ==> batches[i] == batches[1..][i - 1];
    }
  }

  lemma {:induction false} TakePageYields(st: RowsState, page: Page)
    requires st.stats.None?
    ensures var (next, e) := TakePage(st, page);
            && next.pages == st.pages && next.schema == SchemaAfter(st.schema, page) && !e.End?
            && Plus(Buffered(st), PageYield(st.schema, page)) == Plus(OneOf(e), Buffered(next))
  {
    hide SchemaOf, Extended, RowsDecode;
    ExtendedIs(st.rows, page.batches);
  }

  lemma {:induction false} PopYields(st: RowsState)
    requires st.stats.None?
    ensures st.data != [] ==> Left(st) == Plus(OneOf(PopText(st).1), Left(PopText(st).0)) && !PopText(st).1.End?
    ensures st.rows != [] ==> Left(st) == Plus(OneOf(PopBatch(st).1), Left(PopBatch(st).0)) && !PopBatch(st).1.End?
  {
    hide ToCome, ValueRoundTrip.FromRawRow, PagesYield, Ending;
    if st.data != [] {
      assert st.data == [st.data[0]] + st.data[1..];
    }
    if st.rows != [] {
      assert st.rows == [st.rows[0]] + st.rows[1..];
    }
  }

  lemma {:induction false} GotYields(st: RowsState, polled: RowsState, page: Page)
    requires st.stats.None? && polled == st.(pages := polled.pages)
    requires ToCome(st.pages) == [page] + ToCome(polled.pages) && Ending(st.pages) == Ending(polled.pages)
    ensures Left(st) == Plus(OneOf(TakePage(polled, page).1), Left(TakePage(polled, page).0))
    ensures !TakePage(polled, page).1.End?
  {
    hide ToCome, TakePage, Ending, PageYield, Plus, SchemaAfter, Buffered;
    var more := ToCome(polled.pages);
    var own, later := PageYield(st.schema, page), PagesYield(SchemaAfter(st.schema, page), more);
    var (next, e) := TakePage(polled, page);
    TakePageYields(polled, page);
    assert ([page] + more)[0] == page && ([page] + more)[1..] == more;
    assert Buffered(st) == Buffered(polled) by {
      SameBuffered(st, polled);
    }
    PlusAssoc(own, later, Ending(st.pages));
    PlusAssoc(Buffered(st), own, Plus(later, Ending(st.pages)));
    PlusAssoc(OneOf(e), Buffered(next), Plus(later, Ending(st.pages)));
  }

  lemma SameBuffered(st: RowsState, polled: RowsState)
    requires polled == st.(pages := polled.pages)
    ensures Buffered(st) == Buffered(polled)
  {
  }

  /** Nothing comes behind the last page. */
  lemma {:induction false} ExhaustedYields(st: RowsState)
    requires Exhausted(st.pages)
    ensures Left(st) == Buffered(st)
  {
    hide ToCome, Ending, Plus, Buffered;
    NothingToCome(st.pages);
    PlusAssoc(NOTHING, NOTHING, NOTHING);
    PlusAssoc(NOTHING, NOTHING, Buffered(st));
  }

  lemma {:induction false} NothingToCome(st: PagesState)
    requires Exhausted(st)
    ensures ToCome(st) == [] && Ending(st) == NOTHING
  {
  }

  /** What one poll of the pages does to the pages to come and to the end of the chain. */
  lemma {:induction false} PollEnds(st: PagesState)
    ensures var (next, poll) := PollPages(st);
            match poll
            case Pending => ToCome(st) == ToCome(next) && Ending(st) == Plus(OneOf(Waiting), Ending(next))
            case Got(page) => ToCome(st) == [page] + ToCome(next) && Ending(st) == Ending(next)
            case Fault => ToCome(st) == [] && Ending(st) == OneOf(Emit.Fault) && Exhausted(next)
            case Done => ToCome(st) == [] && Ending(st) == NOTHING && Exhausted(next)
  {
    hide ToCome, PollPages, Outstanding, Exhausted;
    PollKeepsPages(st);
    PollWaits(st);
    PollCounts(st);
  }

  /** What one poll gives is exactly what is then no longer to be given, and the end is
  reported only when nothing is. */
  lemma {:induction false} PollRowsKeeps(st: RowsState)
    ensures Left(st) == Plus(OneOf(PollRows(st).1), Left(PollRows(st).0))
    ensures PollRows(st).1.End? ==> Left(st) == NOTHING
  {
    hide ToCome, PollPages, TakePage, PopText, PopBatch, Left, Ending, Plus, OneOf, Exhausted;
    if st.stats.Some? {
      StatsYield(st);
    } else if |st.data| > 1 || |st.rows| > 1 {
      PopYields(st);
    } else {
      PollEnds(st.pages);
      var (pages, poll) := PollPages(st.pages);
      var polled := st.(pages := pages);
      match poll
      case Pending => WaitYields(st, polled);
      case Got(page) => GotYields(st, polled, page);
      case Fault => FaultYields(st, polled);
      case Done =>
        DoneYields(st, polled);
        PopYields(polled);
        if st.data == [] && st.rows == [] {
          NothingGiven(st);
        }
    }
  }

  lemma NothingGiven(st: RowsState)
    requires st.stats.None? && st.data == [] && st.rows == []
    ensures Buffered(st) == NOTHING == Plus(OneOf(End), NOTHING)
  {
    hide Plus;
    PlusAssoc(NOTHING, NOTHING, NOTHING);
  }

  lemma {:induction false} StatsYield(st: RowsState)
    requires st.stats.Some?
    ensures Left(st) == Plus(OneOf(Stats(st.stats.value)), Left(st.(stats := None)))
  {
    hide ToCome, PagesYield, Ending;
  }

  lemma {:induction false} WaitYields(st: RowsState, polled: RowsState)
    requires polled == st.(pages := polled.pages) && ToCome(st.pages) == ToCome(polled.pages)
    requires Ending(st.pages) == Plus(OneOf(Waiting), Ending(polled.pages))
    ensures Left(st) == Plus(OneOf(Waiting), Left(polled))
  {
    hide ToCome, PagesYield, Ending;
  }

  lemma {:induction false} FaultYields(st: RowsState, polled: RowsState)
    requires polled == st.(pages := polled.pages) && Exhausted(polled.pages)
    requires ToCome(st.pages) == [] && Ending(st.pages) == OneOf(Emit.Fault)
    ensures Left(st) == Plus(OneOf(Emit.Fault), Left(polled))
  {
    hide ToCome, Ending, Exhausted, Left;
    ExhaustedYields(polled);
    SameBuffered(st, polled);
    NoPagesYield(st);
  }

  lemma {:induction false} NoPagesYield(st: RowsState)
    requires ToCome(st.pages) == []
    ensures Left(st) == Plus(Buffered(st), Ending(st.pages))
  {
    hide ToCome, Ending, Buffered;
  }

  lemma {:induction false} DoneYields(st: RowsState, polled: RowsState)
    requires polled == st.(pages := polled.pages) && Exhausted(polled.pages)
    requires ToCome(st.pages) == [] && Ending(st.pages) == NOTHING
    ensures Left(st) == Left(polled) == Buffered(st)
  {
    hide ToCome, Ending, Exhausted, Buffered, Plus;
    ExhaustedYields(polled);
    SameBuffered(st, polled);
    NoPagesYield(st);
    PlusAssoc(NOTHING, NOTHING, Buffered(st));
  }

  /** Over a whole run from any state, whatever the delays, wherever the chain fails and
  whatever cannot be decoded: all that was to be given is given, and nothing else. */
  lemma {:induction false} DrainedYields(st: RowsState)
    ensures Given(Drained(st)) == Left(st)
    decreases Work(st)
  {
    hide PollRows, Left, OneOf, Work;
    PollRowsWork(st);
    PollRowsKeeps(st);
    var (next, e) := PollRows(st);
    if !e.End? {
      DrainedYields(next);
      assert ([e] + Drained(next))[0] == e && ([e] + Drained(next))[1..] == Drained(next);
    }
  }

  // ---------------------------------------------------------------------------
  // Pages that can be decoded
  // ---------------------------------------------------------------------------

  /** The text rows that count: a page with batches is read by its batches. */
  function PageText(p: Page): seq<RawRow> {
    if p.batches == [] then p.data else []
  }

  function BatchRows(batches: seq<Batch>): seq<Row> {
    if batches == [] then []
    else (if batches[0].rows.Ok? then batches[0].rows.value else []) + BatchRows(batches[1..])
  }

  function TextOfPages(ps: seq<Page>): seq<RawRow> {
    if ps == [] then [] else PageText(ps[0]) + TextOfPages(ps[1..])
  }

  function RowsOfPages(ps: seq<Page>): seq<Row> {
    if ps == [] then [] else BatchRows(ps[0].batches) + RowsOfPages(ps[1..])
  }

  function StatsOfPages(ps: seq<Page>): seq<nat> {
    if ps == [] then [] else [ps[0].stats] + StatsOfPages(ps[1..])
  }

  /** The schema and the batches of a page can be decoded. */
  predicate Decodable(p: Page) {
    SchemaOf(p.rawSchema).Ok? && forall i :: 0 <= i < |p.batches| ==> p.batches[i].schema.Ok? && p.batches[i].rows.Ok?
  }

  predicate AllDecodable(ps: seq<Page>) {
    forall i :: 0 <= i < |ps| ==> Decodable(ps[i])
  }

  lemma {:induction false} AllRows(batches: seq<Batch>)
    requires RowsDecode(batches)
    ensures DecodedRows(batches) == BatchRows(batches)
  {
    if batches != [] {
      AllRows(batches[1..]);
    }
  }

  lemma DecodablePage(schema: seq<DataType>, p: Page)
    requires Decodable(p)
    ensures PageYield(schema, p) == Yield(PageText(p), BatchRows(p.batches), [p.stats], 0, 0)
  {
    hide SchemaOf;
    AllRows(p.batches);
    if p.batches != [] {
      assert p.batches[0].schema.Ok?;
    }
  }

  /** Pages that can be decoded give all their rows and statistics, and no error. */
  lemma {:induction false} DecodableYields(schema: seq<DataType>, ps: seq<Page>)
    requires AllDecodable(ps)
    ensures PagesYield(schema, ps) == Yield(TextOfPages(ps), RowsOfPages(ps), StatsOfPages(ps), 0, 0)
    decreases |ps|
  {
    hide Decodable, PageYield, PageText, BatchRows;
    if ps != [] {
      DecodablePage(schema, ps[0]);
      DecodableYields(SchemaAfter(schema, ps[0]), ps[1..]);
    }
  }

  /** Over a whole run, whatever the delays and wherever the chain fails, the rows and the
  statistics given are those buffered and those of the pages to come, in order; an error
  is given once if the chain fails and else never; and each poll of delay is one pending
  poll. */
  lemma {:induction false} DrainedRows(st: RowsState)
    requires AllDecodable(ToCome(st.pages))
    ensures var given, ps := Given(Drained(st)), ToCome(st.pages);
            && given.text == st.data + TextOfPages(ps)
            && given.rows == st.rows + RowsOfPages(ps)
            && given.stats == (match st.stats case Some(stats) => [stats] case None => []) + StatsOfPages(ps)
            && given.faults == (if Fails(Outstanding(st.pages)) then 1 else 0)
            && given.waits == Delays(Outstanding(st.pages))
  {
    hide Drained, Given, ToCome, AllDecodable, PagesYield;
    DrainedYields(st);
    DecodableYields(st.schema, ToCome(st.pages));
  }

  // ---------------------------------------------------------------------------
  // From the first page on
  // ---------------------------------------------------------------------------

  /** The pages from the first on that the wait for the schema does not throw away. */
  function FromTelling(ps: seq<Page>, needProgress: bool): seq<Page> {
    if ps != [] && SaysNothing(ps[0], needProgress) then FromTelling(ps[1..], needProgress) else ps
  }

  /** Those thrown away have neither schema nor rows nor, where it is wanted, progress. */
  lemma {:induction false} FromTellingIs(ps: seq<Page>, needProgress: bool) returns (k: nat)
    ensures k <= |ps| && FromTelling(ps, needProgress) == ps[k..]
    ensures forall i :: 0 <= i < k ==> ps[i].rawSchema == [] && ps[i].data == [] && ps[i].batches == []
    ensures needProgress ==> forall i :: 0 <= i < k ==> !ps[i].hasProgress
    ensures k < |ps| ==> ps[k].rawSchema != [] || ps[k].data != [] || ps[k].batches != []
                         || (needProgress && ps[k].hasProgress)
  {
    k := 0;
    if ps != [] && SaysNothing(ps[0], needProgress) {
      k := FromTellingIs(ps[1..], needProgress);
      k := k + 1;
    }
  }

  /** The wait for the schema succeeds exactly when the first page that says anything has a
  schema that can be read, or when the chain ends without such a page; it gives that
  schema, puts that page back, and takes no other one away. */
  lemma {:induction false} AwaitedSchema(st: PagesState, needProgress: bool)
    ensures var ps, r := FromTelling(ToCome(st), needProgress), SchemaAwaited(st, needProgress);
            && (r.Ok? ==> ToCome(r.value.0) == ps && Fails(Outstanding(r.value.0)) == Fails(Outstanding(st)))
            && (ps == [] ==> if Fails(Outstanding(st)) then r == Err(Rejected) else r.Ok? && r.value.1 == [])
            && (ps != [] ==>
                  && (r.Ok? <==> WaitedSchema(ps[0]).Ok?)
                  && (r.Ok? ==> WaitedSchema(ps[0]) == Ok(r.value.1))
                  && (r.Err? ==> WaitedSchema(ps[0]) == Err(r.error)))
    decreases PollsLeft(st)
  {
    hide Next, ToCome, SchemaOf, SaysNothing, Outstanding;
    NextCounts(st);
    NextKeepsPages(st);
    var (next, poll) := Next(st);
    match poll
    case Got(page) =>
      assert ToCome(st)[0] == page && ToCome(st)[1..] == ToCome(next);
      if SaysNothing(page, needProgress) {
        AwaitedSchema(next, needProgress);
      } else {
        PutBack(next, page);
      }
    case Done => NothingToCome(next);
    case _ =>
  }

  /** Waiting for the schema throws away no row and no schema. */
  lemma {:induction false} FromTellingKeeps(ps: seq<Page>)
    ensures var telling := FromTelling(ps, true);
            && TextOfPages(telling) == TextOfPages(ps) && RowsOfPages(telling) == RowsOfPages(ps)
            && FirstSchema(telling) == FirstSchema(ps) && SchemaLeads(telling) == SchemaLeads(ps)
            && (AllDecodable(ps) ==> AllDecodable(telling))
  {
    hide Decodable;
    if ps != [] && SaysNothing(ps[0], true) {
      FromTellingKeeps(ps[1..]);
      assert TextOfPages(ps) == [] + TextOfPages(ps[1..]);
      assert RowsOfPages(ps) == [] + RowsOfPages(ps[1..]);
    }
  }

  lemma {:induction false} AwaitingKeeps(st: PagesState)
    requires SchemaAwaited(st, true).Ok? && AllDecodable(ToCome(st))
    ensures var started := SchemaAwaited(st, true).value.0;
            && TextOfPages(ToCome(started)) == TextOfPages(ToCome(st))
            && RowsOfPages(ToCome(started)) == RowsOfPages(ToCome(st))
            && AllDecodable(ToCome(started))
  {
    hide SchemaAwaited, ToCome, TextOfPages, RowsOfPages, AllDecodable;
    AwaitedSchema(st, true);
    FromTellingKeeps(ToCome(st));
  }

  lemma {:induction false} PutBack(st: PagesState, page: Page)
    requires st.firstPage.None?
    ensures ToCome(st.(firstPage := Some(page))) == [page] + ToCome(st)
    ensures Outstanding(st.(firstPage := Some(page))) == Outstanding(st)
  {
  }

  lemma {:induction false} KeptAll(ps: seq<Page>)
    ensures Kept(ps, true) == ps
  {
    if ps != [] {
      KeptAll(ps[1..]);
      assert [ps[0]] + ps[1..] == ps;
    }
  }

  /** The pages of a new stream. */
  lemma {:induction false} NewStream(page: Page, next: Option<Reply>)
    ensures var st := NewPages(page, next, true);
            ToCome(st) == AllPages(page, next) && Outstanding(st) == next
  {
    NewPagesToCome(page, next, true);
    KeptAll(ChainPages(next));
  }

  /** The stream starts exactly when the first page that says anything has a schema that can
  be read, or when the chain ends without such a page and without a failure. */
  lemma {:induction false} StreamStarts(page: Page, next: Option<Reply>)
    ensures FromPages(NewPages(page, next, true)).Ok? <==>
            var ps := FromTelling(AllPages(page, next), true);
            if ps == [] then !Fails(next) else WaitedSchema(ps[0]).Ok?
  {
    hide SchemaAwaited, ToCome, FromTelling, SchemaOf, Outstanding, NewPages;
    NewStream(page, next);
    AwaitedSchema(NewPages(page, next, true), true);
  }

  /** What the stream gives from the first response on is what the pages give from the first
  that says anything, and an error if the chain fails. */
  lemma {:induction false} StreamYields(page: Page, next: Option<Reply>)
    requires FromPages(NewPages(page, next, true)).Ok?
    ensures var start := FromPages(NewPages(page, next, true)).value;
            var given, all := Given(Drained(start)), PagesYield(start.schema, FromTelling(AllPages(page, next), true));
            && given.text == all.text && given.rows == all.rows && given.stats == all.stats
            && given.faults == all.faults + (if Fails(next) then 1 else 0)
  {
    hide ToCome, Drained, SchemaAwaited, FromTelling, PagesYield, Given, SchemaOf, Outstanding, NewPages;
    NewStream(page, next);
    AwaitedSchema(NewPages(page, next, true), true);
    DrainedYields(FromPages(NewPages(page, next, true)).value);
  }

  /** The stream theorem: the rows given from the first response on are exactly the rows of
  its page and of all pages behind it, in order, with the statistics of all pages from the
  first that says anything, and with one error if the chain fails and else none. */
  lemma {:induction false} StreamRows(page: Page, next: Option<Reply>)
    requires AllDecodable(AllPages(page, next))
    requires FromPages(NewPages(page, next, true)).Ok?
    ensures var given := Given(Drained(FromPages(NewPages(page, next, true)).value));
            && given.text == TextOfPages(AllPages(page, next))
            && given.rows == RowsOfPages(AllPages(page, next))
            && given.stats == StatsOfPages(FromTelling(AllPages(page, next), true))
            && given.faults == (if Fails(next) then 1 else 0)
  {
    hide Drained, FromPages, FromTelling, PagesYield, Given, AllDecodable, TextOfPages, RowsOfPages, StatsOfPages;
    var start := FromPages(NewPages(page, next, true)).value;
    StreamYields(page, next);
    FromTellingKeeps(AllPages(page, next));
    DecodableYields(start.schema, FromTelling(AllPages(page, next), true));
  }

  /** When all pages are text, or all are batches, every row of the stream is of that
  kind, so the order of the rows is that of the pages. */
  lemma {:induction false} SingleFormat(ps: seq<Page>)
    ensures (forall i :: 0 <= i < |ps| ==> ps[i].batches == []) ==>
              RowsOfPages(ps) == [] && TextOfPages(ps) == DataOf(ps)
    ensures (forall i :: 0 <= i < |ps| ==> ps[i].data == []) ==> TextOfPages(ps) == []
  {
    if ps != [] {
      SingleFormat(ps[1..]);
      assert forall i :: 1 <= i < |ps| ==> ps[i] == ps[1..][i - 1];
    }
  }

  // ---------------------------------------------------------------------------
  // What the rows are decoded with, and when the last one comes
  // ---------------------------------------------------------------------------

  /** A known schema stays, and every text row is decoded with it. */
  lemma {:induction false} DrainedDecodes(st: RowsState)
    requires st.schema != []
    ensures forall i :: 0 <= i < |Drained(st)| && Drained(st)[i].TextRow? ==>
              Drained(st)[i].decoded == ValueRoundTrip.FromRawRow(st.schema, Drained(st)[i].raw)
    decreases Work(st)
  {
    hide PollPages, ValueRoundTrip.FromRawRow, Extended, Work;
    PollRowsWork(st);
    var (next, e) := PollRows(st);
    assert next.schema == st.schema;
    if !e.End? {
      DrainedDecodes(next);
    }
  }

  /** The schema that a page gives when none is known yet. */
  function OwnSchema(page: Page): seq<DataType> {
    match TellsSchema(page)
    case Ok(schema) => schema
    case Err(_) => []
  }

  /** The first schema that a page gives. */
  function FirstSchema(ps: seq<Page>): seq<DataType> {
    if ps == [] then []
    else if OwnSchema(ps[0]) != [] then OwnSchema(ps[0])
    else FirstSchema(ps[1..])
  }

  /** No text row comes before the first page that gives a schema. */
  predicate SchemaLeads(ps: seq<Page>) {
    ps == [] || OwnSchema(ps[0]) != [] || (PageText(ps[0]) == [] && SchemaLeads(ps[1..]))
  }

  /** All text rows of a run are decoded with one schema. */
  ghost predicate AllDecodedWith(run: seq<Emit>, schema: seq<DataType>) {
    forall i :: 0 <= i < |run| && run[i].TextRow? ==> run[i].decoded == ValueRoundTrip.FromRawRow(schema, run[i].raw)
  }

  lemma {:induction false} DecodedMore(e: Emit, run: seq<Emit>, schema: seq<DataType>)
    requires AllDecodedWith(run, schema)
    requires e.TextRow? ==> e.decoded == ValueRoundTrip.FromRawRow(schema, e.raw)
    ensures AllDecodedWith([e] + run, schema)
  {
  }

  /** A stream without a schema and without text rows takes the first schema that a page
  gives, and no text row comes earlier. */
  lemma {:induction false} DrainedSettles(st: RowsState)
    requires AllDecodable(ToCome(st.pages)) && SchemaLeads(ToCome(st.pages))
    requires st.schema == [] && st.data == []
    ensures AllDecodedWith(Drained(st), FirstSchema(ToCome(st.pages)))
    decreases Work(st)
  {
    hide PollPages, ToCome, AllDecodedWith, Work, FirstSchema, SchemaLeads, AllDecodable, TakePage;
    hide ValueRoundTrip.FromRawRow;
    PollRowsWork(st);
    var told := FirstSchema(ToCome(st.pages));
    NoneDecoded(told);
    var (next, e) := PollRows(st);
    if st.stats.Some? || |st.rows| > 1 {
      DrainedSettles(next);
      DecodedMore(e, Drained(next), told);
    } else {
      PollKeepsPages(st.pages);
      PollCounts(st.pages);
      var (pages, poll) := PollPages(st.pages);
      var polled := st.(pages := pages);
      match poll
      case Got(page) =>
        NextPageLeads(ToCome(st.pages), page, ToCome(pages));
        GotSettles(polled, page);
        if next.schema != [] {
          DrainedDecodes(next);
          KnownSchema(next);
        } else {
          DrainedSettles(next);
        }
        DecodedMore(e, Drained(next), told);
      case Pending =>
        DrainedSettles(next);
        DecodedMore(e, Drained(next), told);
      case Fault =>
        NoPagesLeft(pages);
        DrainedSettles(next);
        NoSchemaLeft(ToCome(pages));
        NoSchemaLeft(ToCome(st.pages));
        DecodedMore(e, Drained(next), told);
      case Done =>
        NoPagesLeft(pages);
        NoSchemaLeft(ToCome(pages));
        NoSchemaLeft(ToCome(st.pages));
        if !e.End? {
          DrainedSettles(next);
          DecodedMore(e, Drained(next), told);
        }
    }
  }

  lemma NoneDecoded(schema: seq<DataType>)
    ensures AllDecodedWith([], schema)
  {
  }

  lemma KnownSchema(st: RowsState)
    requires forall i :: 0 <= i < |Drained(st)| && Drained(st)[i].TextRow? ==>
               Drained(st)[i].decoded == ValueRoundTrip.FromRawRow(st.schema, Drained(st)[i].raw)
    ensures AllDecodedWith(Drained(st), st.schema)
  {
    hide Drained, ValueRoundTrip.FromRawRow;
  }

  lemma NoPagesLeft(st: PagesState)
    requires Exhausted(st)
    ensures ToCome(st) == [] && AllDecodable(ToCome(st)) && SchemaLeads(ToCome(st))
  {
  }

  lemma NoSchemaLeft(ps: seq<Page>)
    ensures ps == [] ==> FirstSchema(ps) == [] && SchemaLeads(ps)
  {
  }

  lemma NextPageLeads(ps: seq<Page>, page: Page, more: seq<Page>)
    requires ps == [page] + more && AllDecodable(ps) && SchemaLeads(ps)
    ensures Decodable(page) && AllDecodable(more)
    ensures FirstSchema(ps) == if OwnSchema(page) != [] then OwnSchema(page) else FirstSchema(more)
    ensures OwnSchema(page) == [] ==> PageText(page) == [] && SchemaLeads(more)
  {
    hide OwnSchema, Decodable, PageText;
    assert ps[0] == page && ps[1..] == more;
    forall i | 0 <= i < |more| ensures Decodable(more[i]) {
      assert more[i] == ps[i + 1];
    }
  }

  /** A page fixes the schema that it gives, and brings text rows only with one. */
  lemma {:induction false} GotSettles(st: RowsState, page: Page)
    requires Decodable(page) && st.schema == [] && st.data == []
    requires OwnSchema(page) == [] ==> PageText(page) == []
    ensures var (next, e) := TakePage(st, page);
            && !e.TextRow? && !e.End? && next.pages == st.pages && next.schema == OwnSchema(page)
            && (OwnSchema(page) == [] ==> next.data == [])
  {
    hide SchemaOf, Extended;
    if page.batches != [] {
      assert page.batches[0].schema.Ok?;
    }
  }

  /** The schema that the wait reads from a page: that of its first batch, or else that of
  its texts. */
  function WaitedSchema(page: Page): Result<seq<DataType>> {
    if page.batches != [] then page.batches[0].schema else SchemaOf(page.rawSchema)
  }

  /** The schema that the stream decodes with: that of the first page that tells anything,
  or else the first that a page gives. */
  function StreamSchema(ps: seq<Page>): seq<DataType> {
    var telling := FromTelling(ps, true);
    if telling != [] && WaitedSchema(telling[0]).Ok? && WaitedSchema(telling[0]).value != []
    then WaitedSchema(telling[0]).value
    else FirstSchema(ps)
  }

  /** Every text row of the stream is decoded with one schema: that of the first page that
  tells anything, if it has one, and else the first that a page gives, provided that no
  text row comes before it. */
  lemma {:induction false} StreamDecodes(page: Page, next: Option<Reply>)
    requires FromPages(NewPages(page, next, true)).Ok? && AllDecodable(AllPages(page, next))
    requires var ps := FromTelling(AllPages(page, next), true);
             ps == [] || WaitedSchema(ps[0]) != Ok([]) || SchemaLeads(AllPages(page, next))
    ensures AllDecodedWith(Drained(FromPages(NewPages(page, next, true)).value), StreamSchema(AllPages(page, next)))
  {
    hide ToCome, Drained, SchemaAwaited, SchemaOf, FromTelling, AllDecodable;
    hide AllDecodedWith, FirstSchema, SchemaLeads, Outstanding, NewPages;
    var st := NewPages(page, next, true);
    NewStream(page, next);
    AwaitedSchema(st, true);
    FromTellingKeeps(ToCome(st));
    var start := FromPages(st).value;
    if start.schema != [] {
      DrainedDecodes(start);
      KnownSchema(start);
    } else {
      if ToCome(start.pages) == [] {
        NoSchemaLeft(ToCome(start.pages));
      }
      DrainedSettles(start);
    }
  }

  predicate IsRow(e: Emit) {
    e.TextRow? || e.BatchRow?
  }

  /** A row given before the pages have ended leaves another one in a buffer. */
  lemma {:induction false} RowHeldBack(st: RowsState)
    ensures var (next, e) := PollRows(st);
            IsRow(e) ==> next.data != [] || next.rows != [] || Exhausted(next.pages)
  {
    hide PollPages, SchemaFrom, Extended, ValueRoundTrip.FromRawRow;
    PollCounts(st.pages);
  }

  /** The last row of a run comes only after the last page. */
  lemma {:induction false} LastRow(st: RowsState)
    requires IsRow(PollRows(st).1)
    requires forall i :: 0 <= i < |Drained(PollRows(st).0)| ==> !IsRow(Drained(PollRows(st).0)[i])
    ensures Exhausted(PollRows(st).0.pages)
  {
    hide PollRows, Drained, ToCome, PagesYield, Given;
    var next := PollRows(st).0;
    RowHeldBack(st);
    DrainedYields(next);
    NoRowsIn(Drained(next));
  }

  lemma {:induction false} NoRowsIn(es: seq<Emit>)
    requires forall i :: 0 <= i < |es| ==> !IsRow(es[i])
    ensures Given(es).text == [] && Given(es).rows == []
  {
    if es != [] {
      NoRowsIn(es[1..]);
    }
  }
}
