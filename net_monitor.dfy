/** The network-management event handler of the serialnet and usbnet
    applications (the two copies are identical): a `connected` flag and the
    `run_app` semaphore that main waits on, both driven by connection-manager
    events. */
module NetMonitor {

  /** K_SEM_DEFINE(run_app, 0, 1): initial count 0, limit 1. */
  const RunAppInitialCount: nat := 0
  const RunAppLimit: nat := 1

  /** The management events the handler distinguishes; every other event
      code falls into `Other`. */
  datatype NetEvent =
    | L4Connected
    | L4Disconnected
    | L4Ipv4Connected
    | L4Ipv4Disconnected
    | L4Ipv6Connected
    | L4Ipv6Disconnected
    | Other(code: nat)

  /** The events that change the application's state. */
  predicate IsL4Change(e: NetEvent)
  {
    e.L4Connected? || e.L4Disconnected?
  }

  /** What the application knows: the flag and the count of run_app. */
  datatype NetState = NetState(connected: bool, runApp: nat)

  /** The count of run_app never exceeds its limit. */
  predicate Valid(s: NetState)
  {
    s.runApp <= RunAppLimit
  }

  /** The state before any event is delivered. */
  function Initial(): (s: NetState)
    ensures Valid(s) && !s.connected && s.runApp == 0
  {
    NetState(false, RunAppInitialCount)
  }

  /** k_sem_give with no thread waiting: the count grows by one unless it
      already equals the limit. */
  function SemGive(count: nat, limit: nat): (c: nat)
    ensures count <= limit ==> c <= limit
    ensures count < limit ==> c == count + 1
    ensures count == limit ==> c == count
  {
    if count != limit then count + 1 else count
  }

  /** One call of event_handler. */
  function Step(s: NetState, e: NetEvent): (t: NetState)
    ensures Valid(s) ==> Valid(t)
    ensures Valid(s) && e.L4Connected? ==> t == NetState(true, RunAppLimit)
    ensures e.L4Disconnected? ==> t == NetState(false, 0)
    ensures !IsL4Change(e) ==> t == s
  {
    match e
    case L4Connected => NetState(true, SemGive(s.runApp, RunAppLimit))
    case L4Disconnected => NetState(false, 0)
    case _ => s
  }

  /** The state after a sequence of events, delivered in order. */
  function Run(s: NetState, events: seq<NetEvent>): NetState
    decreases |events|
  {
    if events == [] then s
    else Step(Run(s, events[..|events| - 1]), events[|events| - 1])
  }

  /** The run_app count stays within [0, 1] over any sequence of events. */
  lemma {:induction false} RunStaysValid(s: NetState, events: seq<NetEvent>)
    requires Valid(s)
    ensures Valid(Run(s, events))
  {
    if events != [] {
      RunStaysValid(s, events[..|events| - 1]);
    }
  }

  /** Started from the initial state, the flag is set exactly when run_app
      holds its one count (the waiting side of the semaphore aside). */
  lemma {:induction false} RunKeepsFlagWithCount(events: seq<NetEvent>)
    ensures Run(Initial(), events).connected <==> Run(Initial(), events).runApp == 1
    ensures Valid(Run(Initial(), events))
  {
    if events != [] {
      RunKeepsFlagWithCount(events[..|events| - 1]);
    }
  }

  /** The state after a sequence of events is decided by the last
      L4 connected/disconnected event in it: later events of other kinds
      change nothing. */
  lemma {:induction false} LastL4EventDecides(s: NetState, events: seq<NetEvent>, k: nat)
    requires Valid(s)
    requires k < |events| && IsL4Change(events[k])
    requires forall j :: k < j < |events| ==> !IsL4Change(events[j])
    ensures Run(s, events) == if events[k].L4Connected? then NetState(true, 1) else NetState(false, 0)
  {
    if k < |events| - 1 {
      var init := events[..|events| - 1];
      assert forall j :: k < j < |init| ==> init[j] == events[j];
      LastL4EventDecides(s, init, k);
    } else {
      RunStaysValid(s, events[..|events| - 1]);
    }
  }

  /** Events other than L4 connected/disconnected never change the state. */
  lemma {:induction false} OtherEventsChangeNothing(s: NetState, events: seq<NetEvent>)
    requires forall j :: 0 <= j < |events| ==> !IsL4Change(events[j])
    ensures Run(s, events) == s
  {
    if events != [] {
      var init := events[..|events| - 1];
      assert forall j :: 0 <= j < |init| ==> init[j] == events[j];
      OtherEventsChangeNothing(s, init);
    }
  }

  /** Any number of CONNECTED events in a row leaves the count at its limit. */
  lemma {:induction false} RepeatedConnectedStaysAtLimit(s: NetState, n: nat)
    requires Valid(s) && n > 0
    ensures Run(s, seq(n, _ => L4Connected)) == NetState(true, RunAppLimit)
  {
    var events := seq(n, _ => L4Connected);
    if n > 1 {
      assert events[..n - 1] == seq(n - 1, _ => L4Connected);
      RepeatedConnectedStaysAtLimit(s, n - 1);
    } else {
      assert events[..0] == [];
    }
  }

  /** Delivering CONNECTED twice is the same as delivering it once. */
  lemma ConnectedIdempotent(s: NetState)
    requires Valid(s)
    ensures Step(Step(s, L4Connected), L4Connected) == Step(s, L4Connected)
  {
  }

  /** Delivering DISCONNECTED twice is the same as delivering it once. */
  lemma DisconnectedIdempotent(s: NetState)
    ensures Step(Step(s, L4Disconnected), L4Disconnected) == Step(s, L4Disconnected)
  {
  }

  /** A Zephyr counting semaphore, as far as the handler uses it. */
  class Semaphore {
    var count: nat
    const limit: nat

    ghost predicate Valid()
      reads this
    {
      0 < limit && count <= limit
    }

    /** K_SEM_DEFINE: a semaphore with an initial count and a limit. */
    constructor (initialCount: nat, limit: nat)
      requires 0 < limit && initialCount <= limit
      ensures Valid() && count == initialCount && this.limit == limit
    {
      count := initialCount;
      this.limit := limit;
    }

    /** k_sem_give: count up, saturating at the limit. */
    method Give()
      requires Valid()
      modifies this
      ensures Valid() && count == SemGive(old(count), limit)
    {
      if count != limit {
        count := count + 1;
      }
    }

    /** k_sem_reset: drop the count to zero. */
    method Reset()
      requires Valid()
      modifies this
      ensures Valid() && count == 0
    {
      count := 0;
    }
  }

  /** The application's static state around the handler: the `connected`
      flag, the run_app semaphore and whether the handler has been
      registered with the network-management layer. */
  class Monitor {
    var connected: bool
    const runApp: Semaphore
    var callbackRegistered: bool

    ghost predicate Valid()
      reads this, runApp
    {
      runApp.Valid() && runApp.limit == RunAppLimit
    }

    ghost function State(): (s: NetState)
      reads this, runApp
    {
      NetState(connected, runApp.count)
    }

    constructor ()
      ensures Valid() && State() == Initial() && !callbackRegistered && fresh(runApp)
    {
      connected := false;
      runApp := new Semaphore(RunAppInitialCount, RunAppLimit);
      callbackRegistered := false;
    }

    /** event_handler: CONNECTED sets the flag and gives run_app,
        DISCONNECTED clears the flag and resets run_app, every other event is
        only logged. */
    method EventHandler(e: NetEvent)
      requires Valid()
      modifies this`connected, runApp
      ensures Valid() && State() == Step(old(State()), e)
    {
      match e {
        case L4Connected =>
          connected := true;
          runApp.Give();
        case L4Disconnected =>
          if connected {
            connected := false;
          }
          runApp.Reset();
        case L4Ipv4Connected =>
        case L4Ipv4Disconnected =>
        case L4Ipv6Connected =>
        case L4Ipv6Disconnected =>
        case Other(_) =>
      }
    }
  }
}
