/** max3140_main_thread: one activation of the worker. The worker acts on
    the request flags in a fixed order, clearing each flag as it acts on
    it: a pending driver switch-off first, then a configuration load, then
    the service loop for an interrupt and again for a transmit start.
    Finally a received-data flag still standing re-arms the interrupt
    request, so the next activation drains the receive FIFO again. */
module Worker {
  import opened Words
  import opened PortState
  import opened Transport
  import Service
  import Xmit

  datatype Action = DisableDriver | CommitConf | ServiceIrq | ServiceTx

  /** Position of an action in the worker's fixed order. */
  function Rank(a: Action): nat
  {
    match a
    case DisableDriver => 0
    case CommitConf => 1
    case ServiceIrq => 2
    case ServiceTx => 3
  }

  /** Whether the flag that asks for `a` is set. */
  predicate Requested(f: IrqFlags, a: Action)
  {
    match a
    case DisableDriver => f.driverDisable
    case CommitConf => f.confCommit
    case ServiceIrq => f.irqPending
    case ServiceTx => f.txStarted
  }

  /** The flags with the one that asks for `a` cleared. */
  function Clear(f: IrqFlags, a: Action): (f': IrqFlags)
    ensures !Requested(f', a)
    ensures forall b :: b != a ==> Requested(f', b) == Requested(f, b)
  {
    match a
    case DisableDriver => f.(driverDisable := false)
    case CommitConf => f.(confCommit := false)
    case ServiceIrq => f.(irqPending := false)
    case ServiceTx => f.(txStarted := false)
  }

  /** The actions one activation takes for the flags `f`, in the order it
      takes them. */
  function Plan(f: IrqFlags): seq<Action>
  {
    (if f.driverDisable then [DisableDriver] else [])
    + (if f.confCommit then [CommitConf] else [])
    + (if f.irqPending then [ServiceIrq] else [])
    + (if f.txStarted then [ServiceTx] else [])
  }

  /** The plan holds each requested action exactly once, nothing else, and
      in rank order. */
  lemma PlanFollowsFlags(f: IrqFlags)
    ensures forall i, j :: 0 <= i < j < |Plan(f)| ==> Rank(Plan(f)[i]) < Rank(Plan(f)[j])
    ensures forall a :: a in Plan(f) <==> Requested(f, a)
  {
  }

  /** The plan splits into the command actions and the service actions. */
  lemma PlanSplits(f: IrqFlags)
    ensures Plan(f) == Plan(f.(irqPending := false, txStarted := false)) + Plan(f.(driverDisable := false, confCommit := false))
  {
  }

  /** Every configuration field, and every request flag but the ones the
      worker clears, is as in `s`. */
  predicate SameConfig(s: Port, s': Port)
  {
    Service.OnlyLinkChanged(s.(irq := s'.irq), s')
  }

  datatype Stepped = Stepped(link: Service.Link, trace: Trace)

  /** One command word (max3140_cmd); of the loop's state only the cached
      chip status changes. */
  function Command(l: Service.Link, env: Env, t: Trace, w: Word): (r: Stepped)
    ensures r.link == l.(run := Sr1(l.run, env.reply(t.exchanges)))
    ensures r.trace.sent == t.sent + [w] && r.trace.exchanges == t.exchanges + 1
    ensures r.trace.received == t.received + Rx(env, t.exchanges, t.exchanges + 1)
  {
    var c := Cmd(l.run, env, t, w);
    Stepped(l.(run := c.run), c.trace)
  }

  /** A run of the service loop on the port `s` with flags `f` and loop
      state `l`, reduced to what an activation needs. */
  method Serve(s: Port, f: IrqFlags, l: Service.Link, env: Env, t: Trace, fuel: nat) returns (r: Stepped)
    requires Valid(s) && Xmit.Valid(l.xmit)
    ensures Xmit.Valid(r.link.xmit)
    ensures r.trace.exchanges > t.exchanges && t.sent <= r.trace.sent
    ensures Reliable(env) ==> r.trace.received == t.received + Rx(env, t.exchanges, r.trace.exchanges)
    ensures r.link.run == Status(l.run, env, t.exchanges, r.trace.exchanges)
  {
    var p := Service.WithLink(s.(irq := f), l);
    var o := Service.SendAndReceive(p, env, t, fuel);
    Service.ServiceStatus(p, env, t, fuel);
    r := Stepped(Service.LinkOf(o.port), o.trace);
  }

  /** Whether the flags `f` ask for a run of the service loop. The loop
      needs a port set up by startup; the command words do not, and a port
      that was never opened can still be woken by a resume. */
  predicate RunsService(f: IrqFlags)
  {
    f.irqPending || f.txStarted
  }

  datatype Activated = Activated(port: Port, trace: Trace, actions: seq<Action>, rearmed: bool)

  /** The command words an activation sends before anything else. */
  function Commands(s: Port): (ws: seq<Word>)
    requires s.conf & WriteConf == 0
    ensures |ws| <= 2
  {
    (if s.irq.driverDisable then [DisableWord(s.invertRts)] else [])
    + (if s.irq.confCommit then [ConfWord(s.conf)] else [])
  }

  /** One pass of the worker's loop body for the flags set when it wakes,
      each service run bounded by fuel + 1 rounds. It takes exactly the
      actions of the plan, in order, leaves no request standing but a
      re-armed interrupt request when the chip still reports received
      data, sends the switch-off and configuration words before anything
      else, and changes nothing but the loop's state and the flags. */
  method Activate(s: Port, env: Env, t: Trace, fuel: nat) returns (r: Activated)
    requires s.conf & WriteConf == 0 && (RunsService(s.irq) ==> Valid(s))
    ensures r.actions == Plan(s.irq)
    ensures Valid(r.port) == Valid(s) && SameConfig(s, r.port)
    ensures r.port.irq == NoRequests.(irqPending := r.rearmed)
    ensures r.rearmed == Status(s.run, env, t.exchanges, r.trace.exchanges).rxPending
    ensures !r.port.run.rxPending
    ensures t.sent + Commands(s) <= r.trace.sent
    ensures !RunsService(s.irq) ==> r.trace.exchanges == t.exchanges + |Commands(s)|
    ensures RunsService(s.irq) ==> r.trace.exchanges > t.exchanges + |Commands(s)|
    ensures Plan(s.irq) == [] ==> r.trace == t && r.rearmed == s.run.rxPending
    ensures Reliable(env) ==> r.trace.received == t.received + Rx(env, t.exchanges, r.trace.exchanges)
  {
    var w, acts := Dispatch(s, env, t, fuel);
    var p, left := Rearm(s, w.link);
    r := Activated(p, w.trace, acts, left);
  }

  /** On a chip that answers every exchange with an empty transmit buffer
      and no received data, an activation that sends anything leaves no
      request standing. */
  method QuietActivation(s: Port, env: Env, t: Trace, fuel: nat) returns (r: Activated)
    requires s.conf & WriteConf == 0 && (RunsService(s.irq) ==> Valid(s))
    requires Plan(s.irq) != []
    requires forall i :: env.reply(i) == Reply(true, StatusT)
    ensures r.actions == Plan(s.irq)
    ensures !r.rearmed && r.port.irq == NoRequests
  {
    r := Activate(s, env, t, fuel);
    assert r.trace.exchanges > t.exchanges;
    StatusIsLastSuccess(s.run, env, t.exchanges, r.trace.exchanges);
    assert env.reply(r.trace.exchanges - 1).ok;
  }

  /** The requests of an activation acted on in order: the command words,
      then the service runs. */
  method Dispatch(s: Port, env: Env, t: Trace, fuel: nat) returns (r: Stepped, acts: seq<Action>)
    requires s.conf & WriteConf == 0 && (RunsService(s.irq) ==> Valid(s))
    ensures acts == Plan(s.irq)
    ensures RunsService(s.irq) ==> Xmit.Valid(r.link.xmit)
    ensures !RunsService(s.irq) ==> r.link == Service.LinkOf(s).(run := r.link.run)
    ensures t.sent + Commands(s) <= r.trace.sent
    ensures !RunsService(s.irq) ==> r.trace.exchanges == t.exchanges + |Commands(s)|
    ensures RunsService(s.irq) ==> r.trace.exchanges > t.exchanges + |Commands(s)|
    ensures acts == [] ==> r.link == Service.LinkOf(s) && r.trace == t
    ensures Reliable(env) ==> r.trace.received == t.received + Rx(env, t.exchanges, r.trace.exchanges)
    ensures r.link.run == Status(s.run, env, t.exchanges, r.trace.exchanges)
  {
    PlanSplits(s.irq);
    var c, acts1 := SendCommands(s, env, t);
    var o, acts2 := RunServices(s, s.irq.(driverDisable := false, confCommit := false), c.link, env, t, c.trace, fuel);
    StatusSplit(s.run, env, t.exchanges, c.trace.exchanges, o.trace.exchanges);
    r, acts := o, acts1 + acts2;
  }

  /** The end of an activation: a received-data flag the chip still
      reports becomes a fresh interrupt request, and every other request
      is gone. */
  method Rearm(s: Port, l: Service.Link) returns (p: Port, left: bool)
    ensures left == l.run.rxPending
    ensures Valid(p) == Valid(s.(xmit := l.xmit)) && SameConfig(s, p)
    ensures p.irq == NoRequests.(irqPending := left)
    ensures !p.run.rxPending && Service.LinkOf(p) == l.(run := l.run.(rxPending := false))
  {
    left := l.run.rxPending;
    p := Service.WithLink(s.(irq := NoRequests.(irqPending := left)), l.(run := l.run.(rxPending := false)));
  }

  /** The first half of an activation: the switch-off and configuration
      requests, each a single command word. */
  method SendCommands(s: Port, env: Env, t: Trace) returns (r: Stepped, acts: seq<Action>)
    requires s.conf & WriteConf == 0
    ensures acts == Plan(s.irq.(irqPending := false, txStarted := false))
    ensures r.link == Service.LinkOf(s).(run := r.link.run)
    ensures r.trace.sent == t.sent + Commands(s) && r.trace.exchanges == t.exchanges + |Commands(s)|
    ensures acts == [] ==> r.link == Service.LinkOf(s) && r.trace == t
    ensures r.trace.received == t.received + Rx(env, t.exchanges, r.trace.exchanges)
    ensures r.link.run == Status(s.run, env, t.exchanges, r.trace.exchanges)
  {
    var l := Service.LinkOf(s);
    var tr := t;
    acts := [];
    if s.irq.driverDisable {
      var c := Command(l, env, tr, DisableWord(s.invertRts));
      assert Status(s.run, env, t.exchanges, c.trace.exchanges) == c.link.run;
      l, tr, acts := c.link, c.trace, acts + [DisableDriver];
    }
    if s.irq.confCommit {
      var c := Command(l, env, tr, ConfWord(s.conf));
      RxSplit(env, t.exchanges, tr.exchanges, c.trace.exchanges);
      l, tr, acts := c.link, c.trace, acts + [CommitConf];
    }
    r := Stepped(l, tr);
  }

  /** The second half: the service loop for an interrupt, then again for a
      transmit start, with the flags `f` cleared as acted on. The trace `t`
      continues one that started at `t0`. */
  method RunServices(s: Port, f: IrqFlags, l: Service.Link, env: Env, t0: Trace, t: Trace, fuel: nat)
    returns (r: Stepped, acts: seq<Action>)
    requires (RunsService(f) ==> Valid(s) && Xmit.Valid(l.xmit)) && !f.driverDisable && !f.confCommit
    requires t0.exchanges <= t.exchanges && t.received == t0.received + Rx(env, t0.exchanges, t.exchanges)
    ensures acts == Plan(f)
    ensures RunsService(f) ==> Xmit.Valid(r.link.xmit)
    ensures t.sent <= r.trace.sent && t.exchanges <= r.trace.exchanges
    ensures RunsService(f) ==> r.trace.exchanges > t.exchanges
    ensures acts == [] ==> r.link == l && r.trace == t
    ensures Reliable(env) ==> r.trace.received == t0.received + Rx(env, t0.exchanges, r.trace.exchanges)
    ensures r.link.run == Status(l.run, env, t.exchanges, r.trace.exchanges)
  {
    var l' := l;
    var tr := t;
    acts := [];
    if f.irqPending {
      var o := Serve(s, f.(irqPending := false), l', env, tr, fuel);
      RxJoin(env, t0, tr, o.trace);
      l', tr, acts := o.link, o.trace, acts + [ServiceIrq];
    }
    if f.txStarted {
      var o := Serve(s, f.(irqPending := false, txStarted := false), l', env, tr, fuel);
      RxJoin(env, t0, tr, o.trace);
      StatusSplit(l.run, env, t.exchanges, tr.exchanges, o.trace.exchanges);
      l', tr, acts := o.link, o.trace, acts + [ServiceTx];
    }
    r := Stepped(l', tr);
  }

  /** A request set before an activation is acted on by it: every flag set
      has its action in the plan, and a switch-off request is acted on
      before a configuration load. */
  lemma NoRequestIgnored(f: IrqFlags)
    ensures f.driverDisable && f.confCommit ==> Plan(f)[0] == DisableDriver && Plan(f)[1] == CommitConf
    ensures f.txStarted ==> Plan(f)[|Plan(f)| - 1] == ServiceTx
  {
  }
}
