/** The page stream of a query (`core/src/pages.rs`).

The server is a chain of replies: a URI stands for the reply that asking for it will
give, and each reply says how many polls it keeps the client waiting. So every
interleaving of pending polls is some chain. */
module Pages {
  import opened Results
  import opened Schema
  import Values
  import TypeText

  type RawRow = seq<Option<string>>
  type Row = seq<Values.Value>

  /** A record batch: its schema and its rows, as far as they can be decoded. */
  datatype Batch = Batch(schema: Result<seq<DataType>>, rows: Result<seq<Row>>)

  /** A page: the type texts of its schema, its rows as text, its record batches, and
  its statistics. */
  datatype Page = Page(rawSchema: seq<string>, data: seq<RawRow>, batches: seq<Batch>, hasProgress: bool, stats: nat)

  /** What asking for a page gives, after `delay` polls. */
  datatype Reply =
    | Failed(delay: nat)
    | Answered(delay: nat, page: Page, next: Option<Reply>)

  datatype Future = Future(wait: nat, reply: Reply)

  datatype PagesState = PagesState(
    firstPage: Option<Page>, needProgress: bool, future: Option<Future>, nextUri: Option<Reply>)

  datatype PagePoll = Pending | Done | Fault | Got(page: Page)

  /** The polls that a chain of replies may still take. */
  function ChainPolls(r: Option<Reply>): nat {
    match r
    case None => 0
    case Some(Failed(delay)) => delay + 1
    case Some(Answered(delay, _, next)) => delay + 1 + ChainPolls(next)
  }

  /** The chain of a pending future: the delay that is left, then its reply. */
  function Outstanding(st: PagesState): Option<Reply> {
    match st.future
    case Some(f) => Some(f.reply.(delay := f.wait))
    case None => st.nextUri
  }

  function PollPages(st: PagesState): (PagesState, PagePoll)
    decreases ChainPolls(Outstanding(st)), if st.future.None? then 1 else 0
  {
    if st.firstPage.Some? then (st.(firstPage := None), Got(st.firstPage.value))
    else
      match st.future
      case Some(f) =>
        if f.wait > 0 then (st.(future := Some(f.(wait := f.wait - 1))), Pending)
        else if f.reply.Failed? then (st.(future := None, nextUri := None), Fault)
        else
          var answered := st.(future := None, nextUri := f.reply.next);
          if f.reply.page.data == [] && !st.needProgress then PollPages(answered)
          else (answered, Got(f.reply.page))
      case None =>
        match st.nextUri
        case Some(reply) => PollPages(st.(future := Some(Future(reply.delay, reply))))
        case None => (st, Done)
  }

  /** Neither a page nor the prospect of one. */
  predicate Exhausted(st: PagesState) {
    st.firstPage.None? && st.future.None? && st.nextUri.None?
  }

  /** The polls that may still be answered with something else than the end. */
  function PollsLeft(st: PagesState): nat {
    (if st.firstPage.Some? then 1 else 0) + ChainPolls(Outstanding(st))
  }

  lemma {:induction false} PollCounts(st: PagesState)
    ensures var (next, poll) := PollPages(st);
            && next.needProgress == st.needProgress && next.firstPage.None?
            && (poll.Done? ==> Exhausted(next))
            && (!poll.Done? ==> PollsLeft(next) < PollsLeft(st))
    decreases ChainPolls(Outstanding(st)), if st.future.None? then 1 else 0
  {
    if st.firstPage.None? {
      match st.future {
        case Some(f) =>
          if f.wait == 0 && f.reply.Answered? && f.reply.page.data == [] && !st.needProgress {
            PollCounts(st.(future := None, nextUri := f.reply.next));
          }
        case None =>
          if st.nextUri.Some? {
            var reply := st.nextUri.value;
            assert reply.(delay := reply.delay) == reply;
            PollCounts(st.(future := Some(Future(reply.delay, reply))));
          }
      }
    }
  }

  /** Polls until there is an answer. */
  function Next(st: PagesState): (PagesState, PagePoll)
    decreases PollsLeft(st)
  {
    var (next, poll) := PollPages(st);
    if poll.Pending? then
      PollCounts(st);
      Next(next)
    else (next, poll)
  }

  lemma {:induction false} NextCounts(st: PagesState)
    ensures var (next, poll) := Next(st);
            && next.needProgress == st.needProgress && next.firstPage.None? && !poll.Pending?
            && (poll.Done? ==> Exhausted(next))
            && (!poll.Done? ==> PollsLeft(next) < PollsLeft(st))
    decreases PollsLeft(st)
  {
    PollCounts(st);
    var (next, poll) := PollPages(st);
    if poll.Pending? {
      NextCounts(next);
    }
  }

  // ---------------------------------------------------------------------------
  // Waiting for the schema
  // ---------------------------------------------------------------------------

  function SchemaOf(rawSchema: seq<string>): Result<seq<DataType>> {
    if rawSchema == [] then Ok([])
    else
      var t :- TypeText.FromText(rawSchema[0]);
      var ts :- SchemaOf(rawSchema[1..]);
      Ok([t] + ts)
  }

  function PageSchema(page: Page): Result<seq<DataType>> {
    if page.batches != [] then page.batches[0].schema else SchemaOf(page.rawSchema)
  }

  /** A page that the wait may throw away: no schema, no rows, no progress. */
  predicate SaysNothing(page: Page, needProgress: bool) {
    page.rawSchema == [] && page.data == [] && page.batches == [] && !(needProgress && page.hasProgress)
  }

  /** The pages with the one that told the schema put back, and the schema. */
  function SchemaAwaited(st: PagesState, needProgress: bool): Result<(PagesState, seq<DataType>)>
    decreases PollsLeft(st)
  {
    NextCounts(st);
    var (next, poll) := Next(st);
    match poll
    case Got(page) =>
      if SaysNothing(page, needProgress) then SchemaAwaited(next, needProgress)
      else
        var schema :- PageSchema(page);
        Ok((next.(firstPage := Some(page)), schema))
    case Fault => Err(Rejected)
    case _ => Ok((next, []))
  }

  /** `Pages::new`. */
  function NewPages(page: Page, next: Option<Reply>, needProgress: bool): PagesState {
    PagesState(Some(page), needProgress, None, next)
  }

  // ---------------------------------------------------------------------------
  // Gathering a whole result
  // ---------------------------------------------------------------------------

  const EMPTY_PAGE := Page([], [], [], false, 0)

  /** `Page::update`. */
  function Updated(all: Page, p: Page): Page {
    Page(p.rawSchema,
         if all.data == [] then p.data else all.data + p.data,
         if all.batches == [] then p.batches else all.batches + p.batches,
         p.hasProgress, p.stats)
  }

  /** What the loop of `query_all_inner` adds to `all`. */
  function Gathered(st: PagesState, all: Page): Result<Page>
    decreases PollsLeft(st)
  {
    NextCounts(st);
    var (next, poll) := Next(st);
    match poll
    case Got(page) => Gathered(next, Updated(all, page))
    case Fault => Err(Rejected)
    case _ => Ok(all)
  }

  /** The stream as the source holds it. */
  class PageStream {
    var firstPage: Option<Page>
    const needProgress: bool
    var future: Option<Future>
    var nextUri: Option<Reply>

    function State(): PagesState
      reads this
    {
      PagesState(firstPage, needProgress, future, nextUri)
    }

    constructor (page: Page, next: Option<Reply>, needProgress: bool)
      ensures State() == NewPages(page, next, needProgress)
    {
      this.firstPage := Some(page);
      this.needProgress := needProgress;
      this.future := None;
      this.nextUri := next;
    }

    method AddBack(page: Page)
      modifies this
      ensures State() == old(State()).(firstPage := Some(page))
    {
      firstPage := Some(page);
    }

    /** The self-recursive poll. */
    method PollNext() returns (r: PagePoll)
      modifies this
      ensures (State(), r) == PollPages(old(State()))
      decreases ChainPolls(Outstanding(State())), if future.None? then 1 else 0
    {
      if firstPage.Some? {
        r := Got(firstPage.value);
        firstPage := None;
        return;
      }
      match future {
        case Some(f) =>
          if f.wait > 0 {
            future := Some(f.(wait := f.wait - 1));
            return Pending;
          }
          match f.reply {
            case Failed(_) =>
              future := None;
              nextUri := None;
              return Fault;
            case Answered(_, page, next) =>
              nextUri := next;
              future := None;
              if page.data == [] && !needProgress {
                r := PollNext();
              } else {
                r := Got(page);
              }
          }
        case None =>
          match nextUri {
            case Some(reply) =>
              assert reply.(delay := reply.delay) == reply;
              future := Some(Future(reply.delay, reply));
              r := PollNext();
            case None =>
              r := Done;
          }
      }
    }

    /** Polls until there is an answer. */
    method NextPage() returns (r: PagePoll)
      modifies this
      ensures (State(), r) == Next(old(State()))
    {
      hide PollPages;
      r := Pending;
      while r.Pending?
        invariant r.Pending? ==> Next(State()) == Next(old(State()))
        invariant !r.Pending? ==> (State(), r) == Next(old(State()))
        decreases r.Pending?, PollsLeft(State())
      {
        PollCounts(State());
        r := PollNext();
      }
    }

    /** Leaves the stream positioned so that the page that told the schema comes first. */
    method WaitForSchema(needProgress: bool) returns (r: Result<seq<DataType>>)
      modifies this
      ensures match SchemaAwaited(old(State()), needProgress)
              case Ok(p) => State() == p.0 && r == Ok(p.1)
              case Err(e) => r == Err(e)
    {
      hide Next;
      while true
        invariant SchemaAwaited(State(), needProgress) == SchemaAwaited(old(State()), needProgress)
        decreases PollsLeft(State())
      {
        NextCounts(State());
        var poll := NextPage();
        match poll
        case Got(page) =>
          if !SaysNothing(page, needProgress) {
            r := PageSchema(page);
            if r.Ok? {
              AddBack(page);
            }
            return;
          }
        case Fault => return Err(Rejected);
        case _ => return Ok([]);
      }
    }

    method QueryAll() returns (r: Result<Page>)
      modifies this
      ensures r == Gathered(old(State()), EMPTY_PAGE)
    {
      hide Next;
      var all := EMPTY_PAGE;
      while true
        invariant Gathered(State(), all) == Gathered(old(State()), EMPTY_PAGE)
        decreases PollsLeft(State())
      {
        NextCounts(State());
        var poll := NextPage();
        match poll
        case Got(page) => all := Updated(all, page);
        case Fault => return Err(Rejected);
        case _ => return Ok(all);
      }
    }
  }
}
