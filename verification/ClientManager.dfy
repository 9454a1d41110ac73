/** The heartbeat manager (`core/src/client_mgr.rs`): sessions register and unregister
under a lock while a background loop sleeps, is woken, or times out and sends
heartbeats. A run is any interleaving of the steps below. */
module ClientManager {
  import opened Results

  /** The identity of a client object; the map holds weak references to it. */
  type Client = nat

  const IDLE := 3600

  /** Where the loop is: asleep; notified; timed out, before and after it finds the
  map empty; sending heartbeats to the clients that it has copied from the map. */
  datatype Loop =
    | Waiting
    | Woken
    | TimedOut
    | FoundNone
    | Beating(todo: map<string, Client>)

  /** `permit` is a notification not consumed yet; `alive` are the clients that still
  have an owner; `beats` are the heartbeats sent so far. */
  datatype ManagerState = ManagerState(
    clients: map<string, Client>, permit: bool, alive: set<Client>,
    loop: Loop, interval: nat, busy: nat, beats: seq<Client>)

  datatype Action =
    | Register(id: string, client: Client)
    | Unregister(id: string)
    | Drop(client: Client)
    | Wake
    | TurnBusy
    | TimeOut
    | Copy
    | Recheck
    | Beat(id: string)
    | Sleep

  function Init(busy: nat): ManagerState {
    ManagerState(map[], false, {}, Waiting, IDLE, busy, [])
  }

  /** Sessions may act at any time, the loop only from where it is. A timeout may win
  over a notification, which then stays pending. */
  predicate Enabled(st: ManagerState, a: Action) {
    match a
    case Register(_, _) => true
    case Unregister(_) => true
    case Drop(_) => true
    case Wake => st.loop.Waiting? && st.permit
    case TurnBusy => st.loop.Woken?
    case TimeOut => st.loop.Waiting?
    case Copy => st.loop.TimedOut?
    case Recheck => st.loop.FoundNone?
    case Beat(id) => st.loop.Beating? && id in st.loop.todo
    case Sleep => st.loop.Beating? && st.loop.todo == map[]
  }

  /** Sessions are never held up by the loop, and the loop is never stuck. */
  lemma NeverStuck(st: ManagerState, a: Action) returns (next: Action)
    ensures a.Register? || a.Unregister? || a.Drop? ==> Enabled(st, a)
    ensures Enabled(st, next) && !next.Register? && !next.Unregister? && !next.Drop?
  {
    match st.loop
    case Waiting => next := TimeOut;
    case Woken => next := TurnBusy;
    case TimedOut => next := Copy;
    case FoundNone => next := Recheck;
    case Beating(todo) =>
      if todo == map[] {
        next := Sleep;
      } else {
        var id :| id in todo;
        next := Beat(id);
      }
  }

  function Step(st: ManagerState, a: Action): ManagerState
    requires Enabled(st, a)
  {
    match a
    case Register(id, client) =>
      var clients := st.clients[id := client];
      st.(clients := clients, alive := st.alive + {client}, permit := st.permit || |clients| == 1)
    case Unregister(id) => st.(clients := st.clients - {id})
    case Drop(client) => st.(alive := st.alive - {client})
    case Wake => st.(permit := false, loop := Woken)
    case TurnBusy => st.(interval := st.busy, loop := Waiting)
    case TimeOut => st.(loop := TimedOut)
    case Copy => st.(loop := if st.clients == map[] then FoundNone else Beating(st.clients))
    case Recheck => st.(interval := if st.clients == map[] then IDLE else st.interval, loop := Waiting)
    case Beat(id) =>
      var client := st.loop.todo[id];
      st.(loop := Beating(st.loop.todo - {id}),
          beats := if client in st.alive then st.beats + [client] else st.beats)
    case Sleep => st.(loop := Waiting)
  }

  predicate CanRun(st: ManagerState, run: seq<Action>)
    decreases |run|
  {
    run == [] || (Enabled(st, run[0]) && CanRun(Step(st, run[0]), run[1..]))
  }

  function After(st: ManagerState, run: seq<Action>): ManagerState
    requires CanRun(st, run)
    decreases |run|
  {
    if run == [] then st else After(Step(st, run[0]), run[1..])
  }

  // ---------------------------------------------------------------------------
  // No sleep of an hour while a client is registered
  // ---------------------------------------------------------------------------

  /** While a client is registered the loop has the busy interval, or is about to. */
  predicate Watched(st: ManagerState) {
    st.clients != map[] ==> st.interval == st.busy || st.permit || st.loop.Woken?
  }

  lemma {:induction false} StepWatched(st: ManagerState, a: Action)
    requires Watched(st) && Enabled(st, a)
    ensures Watched(Step(st, a)) && Step(st, a).busy == st.busy
  {
  }

  /** The wake-up invariant, over every interleaving: a registered client is served
  with the busy interval, or a notification is pending, or the loop has just got it.
  So a loop asleep without a notification sleeps the busy interval. */
  lemma {:induction false} AlwaysWatched(st: ManagerState, run: seq<Action>)
    requires Watched(st) && CanRun(st, run)
    ensures Watched(After(st, run)) && After(st, run).busy == st.busy
    decreases |run|
  {
    if run != [] {
      StepWatched(st, run[0]);
      AlwaysWatched(Step(st, run[0]), run[1..]);
    }
  }

  lemma {:induction false} RegisteredIsNotLeftIdle(busy: nat, run: seq<Action>)
    requires CanRun(Init(busy), run)
    ensures var st := After(Init(busy), run);
            st.clients != map[] && st.loop.Waiting? && !st.permit ==> st.interval == busy
  {
    AlwaysWatched(Init(busy), run);
  }

  /** The client that a session is registered with after `run`: that of the last time it
  registered, unless it has unregistered since. */
  function RegisteredAs(st: ManagerState, run: seq<Action>, id: string): Option<Client>
    decreases |run|
  {
    if run == [] then (if id in st.clients then Some(st.clients[id]) else None)
    else
      match run[|run| - 1]
      case Register(other, client) =>
        if other == id then Some(client) else RegisteredAs(st, run[..|run| - 1], id)
      case Unregister(other) => if other == id then None else RegisteredAs(st, run[..|run| - 1], id)
      case _ => RegisteredAs(st, run[..|run| - 1], id)
  }

  lemma {:induction false} RunSplits(st: ManagerState, run: seq<Action>)
    requires CanRun(st, run) && run != []
    ensures CanRun(st, run[..|run| - 1])
    ensures var before, last := After(st, run[..|run| - 1]), run[|run| - 1];
            Enabled(before, last) && After(st, run) == Step(before, last)
    decreases |run|
  {
    hide Step, Enabled;
    if |run| == 1 {
      assert run[..0] == [] && run[1..] == [];
    } else {
      var next, more := Step(st, run[0]), run[1..];
      RunSplits(next, more);
      assert run[..|run| - 1][1..] == more[..|more| - 1] && run[..|run| - 1][0] == run[0];
      assert more[|more| - 1] == run[|run| - 1];
    }
  }

  /** After any run the map holds exactly the sessions registered and not unregistered since,
  each with the client that it registered last. */
  lemma {:induction false} MapIsRegistered(st: ManagerState, run: seq<Action>, id: string)
    requires CanRun(st, run)
    ensures var clients := After(st, run).clients;
            RegisteredAs(st, run, id) == if id in clients then Some(clients[id]) else None
    decreases |run|
  {
    hide Step, Enabled, CanRun;
    if run != [] {
      RunSplits(st, run);
      MapIsRegistered(st, run[..|run| - 1], id);
      StepMap(After(st, run[..|run| - 1]), run[|run| - 1], id);
    }
  }

  /** What a step does to the entry of a session. */
  lemma StepMap(st: ManagerState, a: Action, id: string)
    requires Enabled(st, a)
    ensures var clients := Step(st, a).clients;
            match a
            case Register(other, client) =>
              if other == id then id in clients && clients[id] == client
              else (id in clients <==> id in st.clients) && (id in clients ==> clients[id] == st.clients[id])
            case Unregister(other) =>
              if other == id then id !in clients
              else (id in clients <==> id in st.clients) && (id in clients ==> clients[id] == st.clients[id])
            case _ => clients == st.clients
  {
  }

  /** Registering notifies if and only if no other session is registered; nothing but the
  loop takes the notification away, by waking. */
  lemma {:induction false} NotifiesWhenAlone(st: ManagerState, a: Action)
    requires Enabled(st, a)
    ensures a.Register? ==> (Step(st, a).permit <==> st.permit || forall id :: id in st.clients ==> id == a.id)
    ensures !a.Register? ==> (Step(st, a).permit <==> st.permit && !a.Wake?)
  {
    if a.Register? {
      var clients := st.clients[a.id := a.client];
      OneKey(clients, a.id);
      assert forall id :: id in clients <==> id == a.id || id in st.clients;
    }
  }

  lemma {:induction false} OneKey(m: map<string, Client>, id: string)
    requires id in m
    ensures |m| == 1 <==> forall other :: other in m ==> other == id
  {
    assert |m| == |m.Keys| && id in m.Keys;
    if forall other :: other in m ==> other == id {
      assert m.Keys == {id};
    }
    if |m| == 1 {
      assert |m.Keys - {id}| == 0;
      assert m.Keys == m.Keys - {id} + {id};
    }
  }

  /** A heartbeat is sent at one step only, to a client that the round still has to go
  through and that is alive. */
  lemma {:induction false} BeatsOnlyTheLiving(st: ManagerState, a: Action)
    requires Enabled(st, a)
    ensures Step(st, a).beats == st.beats || (a.Beat? && st.loop.todo[a.id] in st.alive
                                              && Step(st, a).beats == st.beats + [st.loop.todo[a.id]])
  {
  }

  /** A round without a client ends with the interval of an hour. */
  lemma {:induction false} EmptyRoundTurnsIdle(st: ManagerState)
    requires st.loop.TimedOut? && st.clients == map[]
    ensures CanRun(st, [Copy, Recheck])
    ensures After(st, [Copy, Recheck]) == st.(loop := Waiting, interval := 3600)
  {
    assert [Copy, Recheck][1..] == [Recheck] && [Recheck][1..] == [];
    assert CanRun(Step(Step(st, Copy), Recheck), []);
    assert CanRun(Step(st, Copy), [Recheck]);
  }

  /** The interval takes two values: it becomes the idle one exactly at a recheck that finds
  the map empty, and the busy one exactly when a notification is acted on. */
  lemma {:induction false} IdleOnlyWhenEmpty(busy: nat, run: seq<Action>, a: Action)
    requires CanRun(Init(busy), run) && Enabled(After(Init(busy), run), a)
    ensures var st := After(Init(busy), run);
            && st.interval in {3600, busy}
            && Step(st, a).interval ==
               if a.TurnBusy? then busy else if a.Recheck? && st.clients == map[] then 3600 else st.interval
  {
    TwoIntervals(Init(busy), run);
  }

  lemma {:induction false} TwoIntervals(st: ManagerState, run: seq<Action>)
    requires CanRun(st, run) && st.interval in {IDLE, st.busy}
    ensures After(st, run).interval in {IDLE, st.busy} && After(st, run).busy == st.busy
    decreases |run|
  {
    if run != [] {
      TwoIntervals(Step(st, run[0]), run[1..]);
    }
  }

  // ---------------------------------------------------------------------------
  // Every round reaches every client
  // ---------------------------------------------------------------------------

  /** The session stays registered with this client, which stays alive. */
  predicate Stays(st: ManagerState, run: seq<Action>, id: string, client: Client)
    requires CanRun(st, run)
    decreases |run|
  {
    && id in st.clients && st.clients[id] == client && client in st.alive
    && (run != [] ==> Stays(Step(st, run[0]), run[1..], id, client))
  }

  /** In this round the heartbeat was sent after the first `from`, or is still due. */
  predicate Due(st: ManagerState, from: nat, id: string, client: Client) {
    && from <= |st.beats|
    && (|| st.loop.TimedOut?
        || (st.loop.Beating? && id in st.loop.todo && st.loop.todo[id] == client)
        || client in st.beats[from..])
  }

  lemma {:induction false} StepDue(st: ManagerState, a: Action, from: nat, id: string, client: Client)
    requires Enabled(st, a) && Due(st, from, id, client)
    requires id in st.clients && st.clients[id] == client && client in st.alive
    ensures Due(Step(st, a), from, id, client)
  {
    match a
    case Beat(other) =>
      if st.loop.todo[other] in st.alive {
        var sent := st.loop.todo[other];
        assert (st.beats + [sent])[from..] == st.beats[from..] + [sent];
      }
    case _ =>
  }

  lemma {:induction false} StillDue(st: ManagerState, run: seq<Action>, from: nat, id: string, client: Client)
    requires CanRun(st, run) && Stays(st, run, id, client) && Due(st, from, id, client)
    ensures Due(After(st, run), from, id, client)
    decreases |run|
  {
    if run != [] {
      StepDue(st, run[0], from, id, client);
      StillDue(Step(st, run[0]), run[1..], from, id, client);
    }
  }

  /** Whatever else happens meanwhile, when the loop sleeps again after a timeout, each
  client registered all the while has been sent a heartbeat. */
  lemma {:induction false} RoundReaches(st: ManagerState, run: seq<Action>, id: string, client: Client)
    requires st.loop.TimedOut? && CanRun(st, run) && Stays(st, run, id, client)
    requires After(st, run).loop.Waiting?
    ensures var end := After(st, run);
            |st.beats| <= |end.beats| && client in end.beats[|st.beats|..]
  {
    StillDue(st, run, |st.beats|, id, client);
  }

  // ---------------------------------------------------------------------------
  // The manager as the source holds it
  // ---------------------------------------------------------------------------

  class Manager {
    var clients: map<string, Client>
    var permit: bool
    var alive: set<Client>
    var loop: Loop
    var interval: nat
    const busyInterval: nat
    var beats: seq<Client>

    function State(): ManagerState
      reads this
    {
      ManagerState(clients, permit, alive, loop, interval, busyInterval, beats)
    }

    constructor (busyInterval: nat)
      ensures State() == Init(busyInterval)
    {
      clients, permit, alive, loop := map[], false, {}, Waiting;
      interval, this.busyInterval, beats := IDLE, busyInterval, [];
    }

    method RegisterClient(id: string, client: Client)
      modifies this
      ensures State() == Step(old(State()), Register(id, client))
    {
      alive := alive + {client};
      clients := clients[id := client];
      if |clients| == 1 {
        permit := true;
      }
    }

    /** The last owner of a client lets go of it. */
    method DropClient(client: Client)
      modifies this
      ensures State() == Step(old(State()), Drop(client))
    {
      alive := alive - {client};
    }

    method UnregisterClient(id: string)
      modifies this
      ensures State() == Step(old(State()), Unregister(id))
    {
      clients := clients - {id};
    }

    /** The wait of the loop: it ends with a notification, or by the clock. */
    method Wait(clockWins: bool)
      requires loop.Waiting? && (permit || clockWins)
      modifies this
      ensures State() == if old(permit) && !clockWins then Step(old(State()), Wake) else Step(old(State()), TimeOut)
    {
      if permit && !clockWins {
        permit := false;
        loop := Woken;
      } else {
        loop := TimedOut;
      }
    }

    method OnNotified()
      requires loop.Woken?
      modifies this
      ensures State() == Step(old(State()), TurnBusy)
    {
      interval := busyInterval;
      loop := Waiting;
    }

    method CopyClients()
      requires loop.TimedOut?
      modifies this
      ensures State() == Step(old(State()), Copy)
    {
      loop := if clients == map[] then FoundNone else Beating(clients);
    }

    method RecheckEmpty()
      requires loop.FoundNone?
      modifies this
      ensures State() == Step(old(State()), Recheck)
    {
      if clients == map[] {
        interval := IDLE;
      }
      loop := Waiting;
    }

    /** One turn of the loop over the copied clients: a dead one is passed over. */
    method SendHeartbeat(id: string)
      requires loop.Beating? && id in loop.todo
      modifies this
      ensures State() == Step(old(State()), Beat(id))
    {
      var client := loop.todo[id];
      if client in alive {
        beats := beats + [client];
      }
      loop := Beating(loop.todo - {id});
    }

    method FinishRound()
      requires loop.Beating? && loop.todo == map[]
      modifies this
      ensures State() == Step(old(State()), Sleep)
    {
      loop := Waiting;
    }

    /** The background loop under a schedule, which says when it runs and when sessions come
    and go in between: whatever the schedule, the wake-up invariant holds all the way. */
    method Run(schedule: seq<Action>)
      requires CanRun(State(), schedule) && Watched(State())
      modifies this
      ensures State() == After(old(State()), schedule) && Watched(State())
    {
      var i := 0;
      assert schedule[0..] == schedule;
      while i < |schedule|
        invariant 0 <= i <= |schedule|
        invariant Watched(State()) && CanRun(State(), schedule[i..])
        invariant After(State(), schedule[i..]) == After(old(State()), schedule)
      {
        var a := schedule[i];
        assert schedule[i..][0] == a && schedule[i..][1..] == schedule[i + 1..];
        StepWatched(State(), a);
        Take(a);
        i := i + 1;
      }
    }

    /** One step of the schedule. */
    method Take(a: Action)
      requires Enabled(State(), a)
      modifies this
      ensures State() == Step(old(State()), a)
    {
      match a
      case Register(id, client) => RegisterClient(id, client);
      case Unregister(id) => UnregisterClient(id);
      case Drop(client) => DropClient(client);
      case Wake => Wait(false);
      case TurnBusy => OnNotified();
      case TimeOut => Wait(true);
      case Copy => CopyClients();
      case Recheck => RecheckEmpty();
      case Beat(id) => SendHeartbeat(id);
      case Sleep => FinishRound();
    }
  }
}
