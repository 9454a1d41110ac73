/** What the page stream delivers, over every chain of replies. */
module PageProofs {
  import opened Results
  import opened Pages

  /** The pages of a chain, up to a failure. */
  function ChainPages(r: Option<Reply>): seq<Page> {
    match r
    case None => []
    case Some(Failed(_)) => []
    case Some(Answered(_, page, next)) => [page] + ChainPages(next)
  }

  predicate Fails(r: Option<Reply>) {
    match r
    case None => false
    case Some(Failed(_)) => true
    case Some(Answered(_, _, next)) => Fails(next)
  }

  /** The pages that are not skipped: without progress, those with rows of text. */
  function Kept(ps: seq<Page>, needProgress: bool): seq<Page> {
    if ps == [] then []
    else (if needProgress || ps[0].data != [] then [ps[0]] else []) + Kept(ps[1..], needProgress)
  }

  /** The pages still to come. The first page is never skipped. */
  function ToCome(st: PagesState): seq<Page> {
    (if st.firstPage.Some? then [st.firstPage.value] else []) + Kept(ChainPages(Outstanding(st)), st.needProgress)
  }

  lemma {:induction false} KeptStep(page: Page, ps: seq<Page>, needProgress: bool)
    ensures Kept([page] + ps, needProgress) ==
            (if needProgress || page.data != [] then [page] else []) + Kept(ps, needProgress)
  {
    assert ([page] + ps)[1..] == ps;
  }

  /** What one poll does to the pages to come. */
  predicate PollLaw(st: PagesState, next: PagesState, poll: PagePoll) {
    match poll
    case Pending => ToCome(st) == ToCome(next) && Fails(Outstanding(st)) == Fails(Outstanding(next))
    case Got(page) => ToCome(st) == [page] + ToCome(next) && Fails(Outstanding(st)) == Fails(Outstanding(next))
    case Done => ToCome(st) == [] && !Fails(Outstanding(st))
    case Fault => ToCome(st) == [] && Fails(Outstanding(st)) && Exhausted(next)
  }

  /** Every poll keeps the pages to come, but for the one that it gives; nothing is
  lost by waiting, and the stream ends or fails only when none is left. */
  lemma {:induction false} PollKeepsPages(st: PagesState)
    ensures PollLaw(st, PollPages(st).0, PollPages(st).1)
    decreases ChainPolls(Outstanding(st)), if st.future.None? then 2 else 1
  {
    if st.firstPage.Some? {
      assert ToCome(st) == [st.firstPage.value] + ToCome(st.(firstPage := None));
    } else {
      match st.future {
        case Some(f) => FutureKeepsPages(st, f);
        case None =>
          if st.nextUri.Some? {
            var reply := st.nextUri.value;
            var asked := st.(future := Some(Future(reply.delay, reply)));
            assert reply.(delay := reply.delay) == reply;
            assert ToCome(asked) == ToCome(st);
            PollKeepsPages(asked);
          }
      }
    }
  }

  lemma {:induction false} FutureKeepsPages(st: PagesState, f: Future)
    requires st.firstPage.None? && st.future == Some(f)
    ensures PollLaw(st, PollPages(st).0, PollPages(st).1)
    decreases ChainPolls(Outstanding(st)), 0
  {
    hide Kept;
    if f.wait > 0 {
      var later := st.(future := Some(f.(wait := f.wait - 1)));
      assert ChainPages(Outstanding(later)) == ChainPages(Outstanding(st));
    } else if f.reply.Answered? {
      var answered := st.(future := None, nextUri := f.reply.next);
      KeptStep(f.reply.page, ChainPages(f.reply.next), st.needProgress);
      if f.reply.page.data == [] && !st.needProgress {
        assert ToCome(answered) == ToCome(st);
        PollKeepsPages(answered);
      } else {
        assert ToCome(st) == [f.reply.page] + ToCome(answered);
      }
    } else {
      NothingKept(st.needProgress);
    }
  }

  /** The polls of delay that a chain of replies costs, up to a failure. */
  function Delays(r: Option<Reply>): nat {
    match r
    case None => 0
    case Some(Failed(delay)) => delay
    case Some(Answered(delay, _, next)) => delay + Delays(next)
  }

  /** A pending poll uses up one poll of delay, and no other poll any; the stream ends or
  fails only when none is left. */
  lemma {:induction false} PollWaits(st: PagesState)
    ensures var (next, poll) := PollPages(st);
            && Delays(Outstanding(st)) == (if poll.Pending? then 1 else 0) + Delays(Outstanding(next))
            && (poll.Done? || poll.Fault? ==> Delays(Outstanding(st)) == 0)
    decreases ChainPolls(Outstanding(st)), if st.future.None? then 1 else 0
  {
    if st.firstPage.None? {
      match st.future {
        case Some(f) =>
          if f.wait == 0 && f.reply.Answered? && f.reply.page.data == [] && !st.needProgress {
            PollWaits(st.(future := None, nextUri := f.reply.next));
          }
        case None =>
          if st.nextUri.Some? {
            var reply := st.nextUri.value;
            assert reply.(delay := reply.delay) == reply;
            PollWaits(st.(future := Some(Future(reply.delay, reply))));
          }
      }
    }
  }

  lemma NothingKept(needProgress: bool)
    ensures Kept([], needProgress) == []
  {
  }

  lemma {:induction false} NextKeepsPages(st: PagesState)
    ensures PollLaw(st, Next(st).0, Next(st).1)
    decreases PollsLeft(st)
  {
    hide PollPages, ToCome;
    PollKeepsPages(st);
    if PollPages(st).1.Pending? {
      PollCounts(st);
      NextKeepsPages(PollPages(st).0);
    }
  }

  // ---------------------------------------------------------------------------
  // Rows of pages
  // ---------------------------------------------------------------------------

  function DataOf(ps: seq<Page>): seq<RawRow> {
    if ps == [] then [] else ps[0].data + DataOf(ps[1..])
  }

  function BatchesOf(ps: seq<Page>): seq<Batch> {
    if ps == [] then [] else ps[0].batches + BatchesOf(ps[1..])
  }

  /** Skipped pages have no rows of text. */
  lemma {:induction false} KeptData(ps: seq<Page>, needProgress: bool)
    ensures DataOf(Kept(ps, needProgress)) == DataOf(ps)
  {
    if ps != [] {
      KeptData(ps[1..], needProgress);
      var more := Kept(ps[1..], needProgress);
      if needProgress || ps[0].data != [] {
        assert ([ps[0]] + more)[1..] == more;
      } else {
        assert [] + more == more;
      }
    }
  }

  /** No page is skipped that has record batches. */
  predicate SkipsNoBatches(ps: seq<Page>, needProgress: bool) {
    needProgress || forall i :: 0 <= i < |ps| && ps[i].data == [] ==> ps[i].batches == []
  }

  lemma {:induction false} KeptBatches(ps: seq<Page>, needProgress: bool)
    ensures |BatchesOf(Kept(ps, needProgress))| <= |BatchesOf(ps)|
    ensures BatchesOf(Kept(ps, needProgress)) == BatchesOf(ps) <==> SkipsNoBatches(ps, needProgress)
  {
    if ps != [] {
      KeptBatches(ps[1..], needProgress);
      var more := Kept(ps[1..], needProgress);
      assert SkipsNoBatches(ps, needProgress) <==>
             (needProgress || ps[0].data != [] || ps[0].batches == []) && SkipsNoBatches(ps[1..], needProgress) by {
        assert forall i :: 1 <= i < |ps| ==> ps[i] == ps[1..][i - 1];
      }
      if needProgress || ps[0].data != [] {
        assert ([ps[0]] + more)[1..] == more;
        SamePrefix(ps[0].batches, BatchesOf(more), BatchesOf(ps[1..]));
      } else {
        assert [] + more == more;
      }
    }
  }

  lemma {:induction false} SamePrefix<T>(a: seq<T>, b: seq<T>, c: seq<T>)
    ensures a + b == a + c <==> b == c
  {
    if a + b == a + c {
      assert (a + b)[|a|..] == b && (a + c)[|a|..] == c;
    }
  }

  function LastOf(page: Page, ps: seq<Page>): Page {
    if ps == [] then page else ps[|ps| - 1]
  }

  /** The gathered page holds the rows and batches of every page delivered, and the schema,
  the progress and the statistics of the last; there is one unless the chain fails. */
  lemma {:induction false} GatheredPages(st: PagesState, all: Page)
    ensures Gathered(st, all).Ok? <==> !Fails(Outstanding(st))
    ensures Gathered(st, all).Err? ==> Gathered(st, all) == Err(Rejected)
    ensures Gathered(st, all).Ok? ==> Gathered(st, all).value.data == all.data + DataOf(ToCome(st))
    ensures Gathered(st, all).Ok? ==> Gathered(st, all).value.batches == all.batches + BatchesOf(ToCome(st))
    ensures Gathered(st, all).Ok? ==>
              var last := LastOf(all, ToCome(st));
              && Gathered(st, all).value.rawSchema == last.rawSchema
              && Gathered(st, all).value.hasProgress == last.hasProgress
              && Gathered(st, all).value.stats == last.stats
    decreases PollsLeft(st)
  {
    hide Next, ToCome;
    NextCounts(st);
    NextKeepsPages(st);
    var (next, poll) := Next(st);
    match poll
    case Got(page) =>
      GatheredPages(next, Updated(all, page));
      LastOfMore(all, Updated(all, page), page, ToCome(next));
      assert ([page] + ToCome(next))[1..] == ToCome(next);
      assert all.data + DataOf(ToCome(st)) == Updated(all, page).data + DataOf(ToCome(next));
      assert all.batches + BatchesOf(ToCome(st)) == Updated(all, page).batches + BatchesOf(ToCome(next));
    case Done =>
      assert all.data + [] == all.data && all.batches + [] == all.batches;
    case Fault =>
    case Pending =>
  }

  lemma LastOfMore(all: Page, updated: Page, page: Page, more: seq<Page>)
    requires updated.rawSchema == page.rawSchema && updated.hasProgress == page.hasProgress
    requires updated.stats == page.stats
    ensures var a, b := LastOf(all, [page] + more), LastOf(updated, more);
            a.rawSchema == b.rawSchema && a.hasProgress == b.hasProgress && a.stats == b.stats
  {
  }

  function AllPages(page: Page, next: Option<Reply>): seq<Page> {
    [page] + ChainPages(next)
  }

  lemma {:induction false} NewPagesToCome(page: Page, next: Option<Reply>, needProgress: bool)
    ensures ToCome(NewPages(page, next, needProgress)) == [page] + Kept(ChainPages(next), needProgress)
  {
  }

  /** Skipping pages without text rows is invisible in the text rows that a whole
  query gathers: they are those of all pages, with or without progress. */
  lemma {:induction false} GatheredData(page: Page, next: Option<Reply>, needProgress: bool)
    ensures var r := Gathered(NewPages(page, next, needProgress), EMPTY_PAGE);
            && (r.Ok? <==> !Fails(next))
            && (r.Ok? ==> r.value.data == DataOf(AllPages(page, next)))
  {
    hide Gathered, ToCome;
    GatheredPages(NewPages(page, next, needProgress), EMPTY_PAGE);
    NewPagesToCome(page, next, needProgress);
    KeptData(ChainPages(next), needProgress);
    assert ([page] + Kept(ChainPages(next), needProgress))[1..] == Kept(ChainPages(next), needProgress);
    assert ([page] + ChainPages(next))[1..] == ChainPages(next);
  }

  /** The record batches are all there exactly when no skipped page had any. */
  lemma {:induction false} GatheredBatches(page: Page, next: Option<Reply>, needProgress: bool)
    requires !Fails(next)
    ensures var r := Gathered(NewPages(page, next, needProgress), EMPTY_PAGE);
            r.Ok? && (r.value.batches == BatchesOf(AllPages(page, next))
                      <==> SkipsNoBatches(ChainPages(next), needProgress))
  {
    hide Gathered, ToCome;
    GatheredPages(NewPages(page, next, needProgress), EMPTY_PAGE);
    NewPagesToCome(page, next, needProgress);
    KeptBatches(ChainPages(next), needProgress);
    assert ([page] + Kept(ChainPages(next), needProgress))[1..] == Kept(ChainPages(next), needProgress);
    assert ([page] + ChainPages(next))[1..] == ChainPages(next);
    SamePrefix(page.batches, BatchesOf(Kept(ChainPages(next), needProgress)), BatchesOf(ChainPages(next)));
  }
}
