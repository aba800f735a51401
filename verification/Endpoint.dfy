/** The two endpoints of the graceful-stop handshake: a fixed method order, deadlines, counters, and an
irreversible burn on any failure.

A method call is cut at its system calls, so the two endpoints interleave between them.  Clock readings,
readiness and kernel failures are chosen by the environment; the clock never goes back.
*/
module Endpoint {
  import opened Bytes

  const PACKET_LIMIT := 262144
  const IO_BUDGET := 2_000_000_000
  const TIME_MAXIMUM := 0x7fff_ffff_ffff_ffff

  datatype Side = Host | Supervisor

  datatype Kind = Result | Error | Unknown

  datatype Method =
    | HostSendsHello
    | HostTakesHello
    | HostSendsConfirmation
    | HostSendsRequest
    | HostTakesTerminal
    | SupervisorTakesHello
    | SupervisorSendsHello
    | SupervisorTakesConfirmation
    | SupervisorTakesRequest
    | SupervisorSendsTerminal(kind: Kind)

  /** What a method demands and where it leads.  `counter` is the number of packets already sent, or
      received, in its own direction. */
  datatype Rule = Rule(side: Side, sends: bool, state: nat, counter: nat, limit: nat, bindsOuter: bool, next: nat)

  function RuleOf(m: Method): Rule {
    match m
    case HostSendsHello => Rule(Host, true, 0, 0, 8192, false, 1)
    case HostTakesHello => Rule(Host, false, 1, 0, 12288, false, 2)
    case HostSendsConfirmation => Rule(Host, true, 2, 1, 8192, false, 3)
    case HostSendsRequest => Rule(Host, true, 3, 2, 95576, true, 4)
    case HostTakesTerminal => Rule(Host, false, 4, 1, 248492, true, 5)
    case SupervisorTakesHello => Rule(Supervisor, false, 1, 0, 8192, false, 2)
    case SupervisorSendsHello => Rule(Supervisor, true, 2, 0, 12288, false, 3)
    case SupervisorTakesConfirmation => Rule(Supervisor, false, 3, 1, 8192, false, 4)
    case SupervisorTakesRequest => Rule(Supervisor, false, 4, 2, 95576, true, 5)
    case SupervisorSendsTerminal(kind) =>
      Rule(Supervisor, true, 5, 1, match kind case Result => 248492 case Error => 51884 case Unknown => 0, true, 6)
  }

  function FirstState(side: Side): nat {
    if side.Host? then 0 else 1
  }

  function LastState(side: Side): nat {
    if side.Host? then 5 else 6
  }

  datatype Disposition = Open | Burned | Terminal | Freed

  type Packet = seq<Byte>

  /** Where the owner's thread is inside a call. */
  datatype Phase =
    | Outside
    | Sending(m: Method, packet: Packet, deadline: nat)
    | Ready(m: Method, packet: Packet, deadline: nat)
    | Sent(m: Method, deadline: nat)
    | Receiving(m: Method, capacity: nat, deadline: nat)
    | Received(m: Method, packet: Packet, capacity: nat, deadline: nat)

  datatype Completion = Completion(m: Method, time: nat)

  /** An endpoint owner.  `closes` counts closings of its socket and `completed` records its successes. */
  datatype Owner = Owner(
    side: Side, state: nat, outgoing: nat, incoming: nat, handshakeDeadline: nat, outerDeadline: nat,
    disposition: Disposition, socketOpen: bool, closes: nat, phase: Phase, completed: seq<Completion>)

  predicate IsNew(e: Owner, side: Side) {
    e == Owner(side, FirstState(side), 0, 0, e.handshakeDeadline, 0, Open, true, 0, Outside, [])
  }

  /** Close the socket if it is still open and refuse everything from now on. */
  function Burn(e: Owner): Owner {
    e.(socketOpen := false, closes := if e.socketOpen then e.closes + 1 else e.closes, disposition := Burned,
       phase := Outside)
  }

  function Close(e: Owner): Owner {
    e.(socketOpen := false, closes := if e.socketOpen then e.closes + 1 else e.closes, disposition := Freed,
       phase := Outside)
  }

  // ---------------------------------------------------------------- the steps of one call

  /** A call: what the caller passes.  `sound` is every identity check but ownership. */
  datatype Call = Call(m: Method, sound: bool, packet: Packet, capacity: nat, outerDeadline: nat)

  predicate Admitted(e: Owner, c: Call) {
    var r := RuleOf(c.m);
    && c.sound && e.disposition.Open? && e.socketOpen
    && c.m != SupervisorSendsTerminal(Unknown)
    && e.side == r.side && e.state == r.state && r.counter == (if r.sends then e.outgoing else e.incoming)
    && (if r.sends then 0 < |c.packet| <= r.limit && |c.packet| <= PACKET_LIMIT else 0 < c.capacity)
  }

  function Minimum(a: nat, b: nat): nat {
    if a < b then a else b
  }

  /** Bind the outer deadline the first time one is given, and find the deadline of this transfer. */
  function IoDeadline(e: Owner, bindsOuter: bool, outer: nat, now: Option<nat>): (r: (Owner, Option<nat>))
    ensures r.0 == e.(outerDeadline := r.0.outerDeadline)
    ensures e.outerDeadline != 0 ==> r.0 == e
    ensures r.1.Some? ==> now.Some? && now.value < r.1.value <= now.value + IO_BUDGET
    ensures r.1.Some? ==> r.1.value <= (if bindsOuter then outer else e.handshakeDeadline)
    ensures r.1.Some? && bindsOuter ==> r.0.outerDeadline == outer
  {
    if now.None? || now.value > TIME_MAXIMUM - IO_BUDGET then (e, None)
    else
      var io := now.value + IO_BUDGET;
      if bindsOuter then
        if outer == 0 || outer > TIME_MAXIMUM || (e.outerDeadline != 0 && e.outerDeadline != outer) then (e, None)
        else
          var deadline := Minimum(io, outer);
          (e.(outerDeadline := outer), if now.value >= deadline then None else Some(deadline))
      else
        var deadline := Minimum(io, e.handshakeDeadline);
        (e, if now.value >= deadline then None else Some(deadline))
  }

  /** From the entry of a method to its first wait on the socket. */
  function Begin(e: Owner, c: Call, now: Option<nat>): Owner {
    if e.disposition.Freed? then e
    else if !Admitted(e, c) then Burn(e)
    else
      var (bound, deadline) := IoDeadline(e, RuleOf(c.m).bindsOuter, c.outerDeadline, now);
      if deadline.None? then Burn(bound)
      else if RuleOf(c.m).sends then bound.(phase := Sending(c.m, c.packet, deadline.value))
      else bound.(phase := Receiving(c.m, c.capacity, deadline.value))
  }

  /** A sender first looks for a packet it did not expect. */
  function Peek(e: Owner, clear: bool): Owner
    requires e.phase.Sending?
  {
    if clear then e.(phase := Ready(e.phase.m, e.phase.packet, e.phase.deadline)) else Burn(e)
  }

  function AfterSend(e: Owner, sent: bool): Owner
    requires e.phase.Ready?
  {
    if sent then e.(phase := Sent(e.phase.m, e.phase.deadline)) else Burn(e)
  }

  /** What admission makes of a packet; `plain` is no truncation, no ancillary data and no source name. */
  predicate Admissible(m: Method, packet: Packet, plain: bool) {
    0 < |packet| <= RuleOf(m).limit && |packet| <= PACKET_LIMIT && plain
  }

  function AfterTake(e: Owner, packet: Packet, plain: bool): Owner
    requires e.phase.Receiving?
  {
    if Admissible(e.phase.m, packet, plain)
    then e.(phase := Received(e.phase.m, packet, e.phase.capacity, e.phase.deadline))
    else Burn(e)
  }

  function Succeeded(e: Owner, m: Method, time: nat): Owner {
    var r := RuleOf(m);
    e.(outgoing := if r.sends then r.counter + 1 else e.outgoing,
       incoming := if r.sends then e.incoming else r.counter + 1,
       state := r.next, disposition := if r.next == LastState(e.side) then Terminal else e.disposition,
       phase := Outside, completed := e.completed + [Completion(m, time)])
  }

  /** The clock is read again once the packet has gone; too late burns the endpoint although it has. */
  function FinishSend(e: Owner, now: Option<nat>): Owner
    requires e.phase.Sent?
  {
    if now.None? || now.value >= e.phase.deadline then Burn(e) else Succeeded(e, e.phase.m, now.value)
  }

  /** A receiver also refuses a packet that does not fit, or that another one already follows. */
  function FinishReceive(e: Owner, now: Option<nat>, clear: bool): Owner
    requires e.phase.Received?
  {
    if now.None? || now.value >= e.phase.deadline || |e.phase.packet| > e.phase.capacity || !clear then Burn(e)
    else Succeeded(e, e.phase.m, now.value)
  }

  // ---------------------------------------------------------------- two endpoints and two channels

  /** A packet with the method that sent it, or took it. */
  datatype Transfer = Transfer(m: Method, packet: Packet)

  /** One direction of the socket pair: what was put on it, what is in it, what was taken off it. */
  datatype Channel = Channel(emitted: seq<Transfer>, queue: seq<Packet>, taken: seq<Transfer>)

  function Emit(c: Channel, m: Method, packet: Packet): Channel {
    c.(emitted := c.emitted + [Transfer(m, packet)], queue := c.queue + [packet])
  }

  function Take(c: Channel, m: Method): Channel
    requires c.queue != []
  {
    c.(queue := c.queue[1..], taken := c.taken + [Transfer(m, c.queue[0])])
  }

  /** One step of one endpoint with its outgoing and incoming channels. */
  ghost predicate Step(e: Owner, out: Channel, inc: Channel, time: nat, e': Owner, out': Channel, inc': Channel) {
    match e.phase
    case Outside =>
      && out' == out && inc' == inc
      && (|| e' == Close(e)
          || exists c: Call, now: Option<nat> :: (now.None? || now.value == time) && e' == Begin(e, c, now))
    case Sending(_, _, _) =>
      out' == out && inc' == inc && (e' == Burn(e) || (inc.queue == [] && e' == Peek(e, true)))
    case Ready(m, packet, _) =>
      inc' == inc
      && ((out' == out && e' == AfterSend(e, false)) || (out' == Emit(out, m, packet) && e' == AfterSend(e, true)))
    case Sent(_, _) =>
      out' == out && inc' == inc && (e' == FinishSend(e, None) || e' == FinishSend(e, Some(time)))
    case Receiving(m, _, _) =>
      && out' == out
      && (|| (inc' == inc && e' == Burn(e))
          || (&& inc.queue != [] && inc' == Take(inc, m)
              && (e' == AfterTake(e, inc.queue[0], true) || e' == AfterTake(e, inc.queue[0], false))))
    case Received(_, _, _, _) =>
      && out' == out && inc' == inc
      && (|| e' == FinishReceive(e, None, false)
          || e' == FinishReceive(e, Some(time), false)
          || (inc.queue == [] && e' == FinishReceive(e, Some(time), true)))
  }

  datatype World = World(host: Owner, supervisor: Owner, up: Channel, down: Channel, time: nat)

  ghost predicate Next(w: World, w': World) {
    && w.time <= w'.time
    && (|| (Step(w.host, w.up, w.down, w'.time, w'.host, w'.up, w'.down) && w'.supervisor == w.supervisor)
        || (Step(w.supervisor, w.down, w.up, w'.time, w'.supervisor, w'.down, w'.up) && w'.host == w.host))
  }

  ghost predicate Init(w: World) {
    IsNew(w.host, Host) && IsNew(w.supervisor, Supervisor) && w.up == Channel([], [], [])
    && w.down == Channel([], [], [])
  }

  // ---------------------------------------------------------------- what one endpoint keeps

  /** The packets sent and received on the way to a state. */
  function Counts(side: Side, state: nat): (nat, nat) {
    if side.Host? then
      match state case 0 => (0, 0) case 1 => (1, 0) case 2 => (1, 1) case 3 => (2, 1) case 4 => (3, 1) case _ => (3, 2)
    else
      match state case 1 => (0, 0) case 2 => (0, 1) case 3 => (1, 1) case 4 => (1, 2) case 5 => (1, 3) case _ => (2, 3)
  }

  /** The phase and the rule agree with the owner: it is mid-call in the one method its state allows. */
  predicate Engaged(e: Owner, m: Method, sends: bool, deadline: nat) {
    var r := RuleOf(m);
    && e.disposition.Open? && e.socketOpen
    && r.side == e.side && r.sends == sends && r.state == e.state
    && r.counter == (if sends then e.outgoing else e.incoming)
    && deadline <= (if r.bindsOuter then e.outerDeadline else e.handshakeDeadline)
  }

  predicate PhaseInv(e: Owner) {
    match e.phase
    case Outside => true
    case Sending(m, _, deadline) => Engaged(e, m, true, deadline)
    case Ready(m, _, deadline) => Engaged(e, m, true, deadline)
    case Sent(m, deadline) => Engaged(e, m, true, deadline)
    case Receiving(m, _, deadline) => Engaged(e, m, false, deadline)
    case Received(m, _, _, deadline) => Engaged(e, m, false, deadline)
  }

  predicate StateInv(e: Owner) {
    && FirstState(e.side) <= e.state <= LastState(e.side)
    && (e.outgoing, e.incoming) == Counts(e.side, e.state)
    && (e.disposition.Open? ==> e.state < LastState(e.side))
    && (e.disposition.Terminal? ==> e.state == LastState(e.side) && e.phase.Outside?)
    && (e.socketOpen <==> e.disposition.Open? || e.disposition.Terminal?)
    && e.closes == (if e.socketOpen then 0 else 1)
  }

  predicate InTime(e: Owner, c: Completion) {
    c.time < if RuleOf(c.m).bindsOuter then e.outerDeadline else e.handshakeDeadline
  }

  predicate TimeInv(e: Owner) {
    forall i :: 0 <= i < |e.completed| ==> InTime(e, e.completed[i])
  }

  /** The k-th packet this side sends, or takes, is the business of method m. */
  predicate IsTurn(side: Side, sends: bool, k: nat, m: Method) {
    var r := RuleOf(m);
    r.side == side && r.sends == sends && r.counter == k
  }

  predicate InTurn(side: Side, sends: bool, ts: seq<Transfer>) {
    forall k :: 0 <= k < |ts| ==> IsTurn(side, sends, k, ts[k].m)
  }

  /** A state in which some method sends, or takes. */
  predicate HasTurn(side: Side, sends: bool, state: nat) {
    if side.Host? then state in (if sends then {0, 2, 3} else {1, 4})
    else state in (if sends then {2, 5} else {1, 3, 4})
  }

  /** How many transfers the counter has seen: all, or all but the one in hand, or all but the one the
      endpoint burned on. */
  predicate Counted(e: Owner, sends: bool, ts: seq<Transfer>) {
    var counter := if sends then e.outgoing else e.incoming;
    if (if sends then e.phase.Sent? else e.phase.Received?) then |ts| == counter + 1
    else |ts| == counter || (|ts| == counter + 1 && !e.socketOpen && HasTurn(e.side, sends, e.state))
  }

  predicate OwnerInv(e: Owner, out: Channel, inc: Channel) {
    StateInv(e) && PhaseInv(e) && TimeInv(e)
    && Counted(e, true, out.emitted) && Counted(e, false, inc.taken)
    && InTurn(e.side, true, out.emitted) && InTurn(e.side, false, inc.taken)
  }

  // A step of the owner is a Burn, a Close, an entry into a phase, or a success.

  lemma BeginKeeps(e: Owner, c: Call, now: Option<nat>)
    requires StateInv(e) && e.phase.Outside? && TimeInv(e)
    ensures var e' := Begin(e, c, now);
            && StateInv(e') && PhaseInv(e') && TimeInv(e')
            && (e'.side, e'.state, e'.outgoing, e'.incoming, e'.completed)
               == (e.side, e.state, e.outgoing, e.incoming, e.completed)
            && !e'.phase.Sent? && !e'.phase.Received? && (!e.socketOpen ==> !e'.socketOpen)
  {
  }

  lemma SuccessKeeps(e: Owner, m: Method, sends: bool, deadline: nat, time: nat)
    requires StateInv(e) && TimeInv(e) && Engaged(e, m, sends, deadline) && time < deadline
    ensures var e' := Succeeded(e, m, time);
            && StateInv(e') && TimeInv(e') && e'.side == e.side
            && e'.outgoing == e.outgoing + (if sends then 1 else 0)
            && e'.incoming == e.incoming + (if sends then 0 else 1)
  {
  }

  lemma BurnKeeps(e: Owner, out: Channel, inc: Channel)
    requires OwnerInv(e, out, inc)
    ensures OwnerInv(Burn(e), out, inc) && OwnerInv(Close(e), out, inc)
  {
  }

  lemma TurnTaken(side: Side, sends: bool, ts: seq<Transfer>, t: Transfer)
    requires InTurn(side, sends, ts) && IsTurn(side, sends, |ts|, t.m)
    ensures InTurn(side, sends, ts + [t])
  {
  }

  lemma EngagedHasTurn(e: Owner, m: Method, sends: bool, deadline: nat)
    requires Engaged(e, m, sends, deadline)
    ensures HasTurn(e.side, sends, e.state) && IsTurn(e.side, sends, if sends then e.outgoing else e.incoming, m)
  {
  }

  lemma OutsideKeeps(e: Owner, out: Channel, inc: Channel, time: nat, e': Owner)
    requires OwnerInv(e, out, inc) && e.phase.Outside?
    requires Step(e, out, inc, time, e', out, inc)
    ensures OwnerInv(e', out, inc)
  {
    hide Begin, StateInv, PhaseInv, TimeInv, InTurn, HasTurn;
    if e' == Close(e) {
      BurnKeeps(e, out, inc);
    } else {
      var c: Call, now: Option<nat> :| (now.None? || now.value == time) && e' == Begin(e, c, now);
      BeginKeeps(e, c, now);
    }
  }

  lemma SendKeeps(e: Owner, out: Channel, inc: Channel, time: nat, e': Owner, out': Channel)
    requires OwnerInv(e, out, inc) && (e.phase.Sending? || e.phase.Ready? || e.phase.Sent?)
    requires Step(e, out, inc, time, e', out', inc)
    ensures OwnerInv(e', out', inc)
  {
    hide RuleOf, Counts, InTurn, IsTurn, HasTurn;
    BurnKeeps(e, out, inc);
    EngagedHasTurn(e, e.phase.m, true, e.phase.deadline);
    if e.phase.Ready? && out' != out {
      TurnTaken(e.side, true, out.emitted, Transfer(e.phase.m, e.phase.packet));
    }
    if e.phase.Sent? && time < e.phase.deadline {
      SuccessKeeps(e, e.phase.m, true, e.phase.deadline, time);
    }
  }

  lemma ReceiveKeeps(e: Owner, out: Channel, inc: Channel, time: nat, e': Owner, inc': Channel)
    requires OwnerInv(e, out, inc) && (e.phase.Receiving? || e.phase.Received?)
    requires Step(e, out, inc, time, e', out, inc')
    ensures OwnerInv(e', out, inc')
  {
    hide RuleOf, Counts, InTurn, IsTurn, HasTurn, Admissible;
    BurnKeeps(e, out, inc);
    EngagedHasTurn(e, e.phase.m, false, e.phase.deadline);
    if e.phase.Receiving? && inc' != inc {
      TurnTaken(e.side, false, inc.taken, Transfer(e.phase.m, inc.queue[0]));
    }
    if e.phase.Received? && time < e.phase.deadline {
      SuccessKeeps(e, e.phase.m, false, e.phase.deadline, time);
    }
  }

  lemma StepKeeps(e: Owner, out: Channel, inc: Channel, time: nat, e': Owner, out': Channel, inc': Channel)
    requires OwnerInv(e, out, inc) && Step(e, out, inc, time, e', out', inc')
    ensures OwnerInv(e', out', inc')
  {
    hide OwnerInv, Begin, Peek, AfterSend, AfterTake, FinishSend, FinishReceive;
    match e.phase
    case Outside => OutsideKeeps(e, out, inc, time, e');
    case Sending(_, _, _) => SendKeeps(e, out, inc, time, e', out');
    case Ready(_, _, _) => SendKeeps(e, out, inc, time, e', out');
    case Sent(_, _) => SendKeeps(e, out, inc, time, e', out');
    case Receiving(_, _, _) => ReceiveKeeps(e, out, inc, time, e', inc');
    case Received(_, _, _, _) => ReceiveKeeps(e, out, inc, time, e', inc');
  }

  // ---------------------------------------------------------------- what the session keeps

  function Packets(ts: seq<Transfer>): (r: seq<Packet>)
    ensures |r| == |ts|
  {
    seq(|ts|, i requires 0 <= i < |ts| => ts[i].packet)
  }

  /** Nothing is lost, invented or reordered between the two ends. */
  predicate Fifo(c: Channel) {
    Packets(c.taken) + c.queue == Packets(c.emitted)
  }

  lemma EmitFifo(c: Channel, m: Method, packet: Packet)
    requires Fifo(c)
    ensures Fifo(Emit(c, m, packet))
  {
    assert Packets(c.emitted + [Transfer(m, packet)]) == Packets(c.emitted) + [packet];
  }

  lemma TakeFifo(c: Channel, m: Method)
    requires Fifo(c) && c.queue != []
    ensures Fifo(Take(c, m))
  {
  }

  /** What a step leaves alone: the far end of each channel, and everything once burned. */
  lemma StepFrame(e: Owner, out: Channel, inc: Channel, time: nat, e': Owner, out': Channel, inc': Channel)
    requires Step(e, out, inc, time, e', out', inc')
    ensures out'.taken == out.taken && inc'.emitted == inc.emitted
    ensures Fifo(out) ==> Fifo(out')
    ensures Fifo(inc) ==> Fifo(inc')
  {
    hide Fifo, Begin;
    match e.phase
    case Ready(m, packet, _) =>
      if Fifo(out) { EmitFifo(out, m, packet); }
    case Receiving(m, _, _) =>
      if Fifo(inc) && inc.queue != [] { TakeFifo(inc, m); }
    case _ =>
  }

  ghost predicate Inv(w: World) {
    && w.host.side == Host && w.supervisor.side == Supervisor
    && OwnerInv(w.host, w.up, w.down) && OwnerInv(w.supervisor, w.down, w.up)
    && Fifo(w.up) && Fifo(w.down)
  }

  lemma OwnerInvFrame(e: Owner, out: Channel, inc: Channel, out': Channel, inc': Channel)
    requires OwnerInv(e, out, inc) && out'.emitted == out.emitted && inc'.taken == inc.taken
    ensures OwnerInv(e, out', inc')
  {
  }

  lemma StepKeepsSide(e: Owner, out: Channel, inc: Channel, time: nat, e': Owner, out': Channel, inc': Channel)
    requires Step(e, out, inc, time, e', out', inc')
    ensures e'.side == e.side && e'.handshakeDeadline == e.handshakeDeadline
    ensures e.outerDeadline != 0 ==> e'.outerDeadline == e.outerDeadline
  {
  }

  lemma NextInv(w: World, w': World)
    requires Inv(w) && Next(w, w')
    ensures Inv(w')
  {
    hide OwnerInv, Step, Fifo;
    if Step(w.host, w.up, w.down, w'.time, w'.host, w'.up, w'.down) && w'.supervisor == w.supervisor {
      StepKeeps(w.host, w.up, w.down, w'.time, w'.host, w'.up, w'.down);
      StepFrame(w.host, w.up, w.down, w'.time, w'.host, w'.up, w'.down);
      StepKeepsSide(w.host, w.up, w.down, w'.time, w'.host, w'.up, w'.down);
      OwnerInvFrame(w.supervisor, w.down, w.up, w'.down, w'.up);
    } else {
      StepKeeps(w.supervisor, w.down, w.up, w'.time, w'.supervisor, w'.down, w'.up);
      StepFrame(w.supervisor, w.down, w.up, w'.time, w'.supervisor, w'.down, w'.up);
      StepKeepsSide(w.supervisor, w.down, w.up, w'.time, w'.supervisor, w'.down, w'.up);
      OwnerInvFrame(w.host, w.up, w.down, w'.up, w'.down);
    }
  }

  type Run = seq<World>

  ghost predicate IsRun(r: Run) {
    |r| > 0 && Init(r[0]) && forall i :: 0 <= i < |r| - 1 ==> Next(r[i], r[i + 1])
  }

  lemma {:induction false} RunInv(r: Run, k: nat)
    requires IsRun(r) && k < |r|
    ensures Inv(r[k])
  {
    if k > 0 {
      hide Inv, Next;
      RunInv(r, k - 1);
      assert Next(r[k - 1], r[k - 1 + 1]);
      NextInv(r[k - 1], r[k]);
    }
  }

  // ---------------------------------------------------------------- the theorems

  /** The method of the other side that is meant to take what this method sends. */
  predicate Matches(sender: Method, taker: Method) {
    match sender
    case HostSendsHello => taker == SupervisorTakesHello
    case HostSendsConfirmation => taker == SupervisorTakesConfirmation
    case HostSendsRequest => taker == SupervisorTakesRequest
    case SupervisorSendsHello => taker == HostTakesHello
    case SupervisorSendsTerminal(_) => taker == HostTakesTerminal
    case _ => false
  }

  lemma TurnsMatch(side: Side, other: Side, k: nat, sender: Method, taker: Method)
    requires side != other && IsTurn(side, true, k, sender) && IsTurn(other, false, k, taker)
    ensures Matches(sender, taker)
  {
  }

  ghost predicate Agrees(c: Channel) {
    && |c.taken| <= |c.emitted|
    && forall k :: 0 <= k < |c.taken| ==>
         c.taken[k].packet == c.emitted[k].packet && Matches(c.emitted[k].m, c.taken[k].m)
  }

  lemma FifoAgrees(c: Channel, side: Side, other: Side)
    requires Fifo(c) && side != other && InTurn(side, true, c.emitted) && InTurn(other, false, c.taken)
    ensures Agrees(c)
  {
    hide Matches, IsTurn;
    forall k | 0 <= k < |c.taken|
      ensures c.taken[k].packet == c.emitted[k].packet && Matches(c.emitted[k].m, c.taken[k].m)
    {
      assert (Packets(c.taken) + c.queue)[k] == Packets(c.emitted)[k];
      TurnsMatch(side, other, k, c.emitted[k].m, c.taken[k].m);
    }
  }

  /** Session agreement: in every reachable world the k-th packet one side takes is the k-th packet the
      other side emitted, and was emitted by the matching method. */
  lemma SessionAgreement(r: Run, k: nat)
    requires IsRun(r) && k < |r|
    ensures Agrees(r[k].up) && Agrees(r[k].down)
  {
    hide IsRun, Agrees, Fifo, InTurn, StateInv, PhaseInv, TimeInv, Counted;
    RunInv(r, k);
    FifoAgrees(r[k].up, Host, Supervisor);
    FifoAgrees(r[k].down, Supervisor, Host);
  }

  ghost predicate CountersExact(e: Owner, out: Channel, inc: Channel) {
    var sent, taken := |out.emitted|, |inc.taken|;
    if e.socketOpen then
      e.phase.Outside? ==> sent == e.outgoing && taken == e.incoming
    else
      e.outgoing <= sent <= e.outgoing + 1 && e.incoming <= taken <= e.incoming + 1
      && sent + taken <= e.outgoing + e.incoming + 1
  }

  /** An endpoint that is not burned counts exactly; a burned one is behind by at most one packet. */
  lemma CountersTrue(r: Run, k: nat)
    requires IsRun(r) && k < |r|
    ensures CountersExact(r[k].host, r[k].up, r[k].down)
    ensures CountersExact(r[k].supervisor, r[k].down, r[k].up)
  {
    hide IsRun, InTurn, Fifo, TimeInv, RuleOf;
    RunInv(r, k);
    assert OwnerInv(r[k].host, r[k].up, r[k].down);
    assert OwnerInv(r[k].supervisor, r[k].down, r[k].up);
    assert !(HasTurn(Host, true, r[k].host.state) && HasTurn(Host, false, r[k].host.state));
    assert !(HasTurn(Supervisor, true, r[k].supervisor.state) && HasTurn(Supervisor, false, r[k].supervisor.state));
  }

  /** The lag is real: a host that finds the deadline passed after sending its hello has burned with
      none counted and one packet on the wire. */
  lemma LateSendLags() returns (r: Run)
    ensures IsRun(r) && |r| == 5
    ensures r[4].host.disposition == Burned && r[4].host.outgoing == 0 && |r[4].up.emitted| == 1
  {
    var c := Call(HostSendsHello, true, [0], 0, 0);
    var host := Owner(Host, 0, 0, 0, 5 * IO_BUDGET, 0, Open, true, 0, Outside, []);
    var supervisor := host.(side := Supervisor, state := 1);
    var empty := Channel([], [], []);
    var begun := Begin(host, c, Some(0));
    var peeked := Peek(begun, true);
    var sent := AfterSend(peeked, true);
    var w0 := World(host, supervisor, empty, empty, 0);
    var w1, w2 := w0.(host := begun), w0.(host := peeked);
    var w3 := w0.(host := sent, up := Emit(empty, HostSendsHello, [0]));
    var w4 := w3.(host := FinishSend(sent, Some(IO_BUDGET)), time := IO_BUDGET);
    assert Step(host, empty, empty, 0, begun, empty, empty);
    r := [w0, w1, w2, w3, w4];
    assert Next(w0, w1) && Next(w1, w2) && Next(w2, w3) && Next(w3, w4);
  }

  /** A host that has its terminal packet: the supervisor took the hello, the confirmation and the
      request it sent, byte for byte, and emitted one hello and one terminal packet, which it took. */
  lemma TerminalMeansSession(r: Run, k: nat)
    requires IsRun(r) && k < |r| && r[k].host.state == LastState(Host)
    ensures var up, down := r[k].up, r[k].down;
            && |up.taken| == |up.emitted| == 3 && Packets(up.taken) == Packets(up.emitted)
            && up.taken[0].m == SupervisorTakesHello && up.taken[1].m == SupervisorTakesConfirmation
            && up.taken[2].m == SupervisorTakesRequest
            && |down.taken| == |down.emitted| == 2 && Packets(down.taken) == Packets(down.emitted)
            && down.emitted[0].m == SupervisorSendsHello && down.emitted[1].m.SupervisorSendsTerminal?
  {
    hide IsRun, TimeInv;
    RunInv(r, k);
    SessionAgreement(r, k);
    var w := r[k];
    assert OwnerInv(w.host, w.up, w.down) && OwnerInv(w.supervisor, w.down, w.up);
    assert |w.up.emitted| == 3 && |w.down.taken| == 2;
    assert IsTurn(Supervisor, true, 1, w.down.emitted[1].m);
    assert IsTurn(Supervisor, true, 0, w.down.emitted[0].m);
    assert |w.up.taken| == 3;
    assert IsTurn(Supervisor, false, 0, w.up.taken[0].m) && IsTurn(Supervisor, false, 1, w.up.taken[1].m);
    assert IsTurn(Supervisor, false, 2, w.up.taken[2].m);
    assert Packets(w.up.taken) == Packets(w.up.emitted) && Packets(w.down.taken) == Packets(w.down.emitted);
  }

  /** What never comes back: a closed socket, a bound deadline, and with the socket every transfer. */
  ghost predicate Settled(e: Owner, out: Channel, inc: Channel, e': Owner, out': Channel, inc': Channel) {
    && e'.handshakeDeadline == e.handshakeDeadline
    && (e.outerDeadline != 0 ==> e'.outerDeadline == e.outerDeadline)
    && (!e.socketOpen ==>
          && !e'.socketOpen && out'.emitted == out.emitted && inc'.taken == inc.taken
          && e'.outgoing == e.outgoing && e'.incoming == e.incoming && e'.completed == e.completed)
  }

  lemma StepSettled(e: Owner, out: Channel, inc: Channel, time: nat, e': Owner, out': Channel, inc': Channel)
    requires OwnerInv(e, out, inc) && Step(e, out, inc, time, e', out', inc')
    ensures Settled(e, out, inc, e', out', inc')
  {
  }

  ghost predicate BothSettled(w: World, w': World) {
    && Settled(w.host, w.up, w.down, w'.host, w'.up, w'.down)
    && Settled(w.supervisor, w.down, w.up, w'.supervisor, w'.down, w'.up)
  }

  lemma NextSettled(w: World, w': World)
    requires Inv(w) && Next(w, w')
    ensures BothSettled(w, w')
  {
    hide OwnerInv, Step, Fifo;
    if Step(w.host, w.up, w.down, w'.time, w'.host, w'.up, w'.down) && w'.supervisor == w.supervisor {
      StepSettled(w.host, w.up, w.down, w'.time, w'.host, w'.up, w'.down);
      StepFrame(w.host, w.up, w.down, w'.time, w'.host, w'.up, w'.down);
    } else {
      StepSettled(w.supervisor, w.down, w.up, w'.time, w'.supervisor, w'.down, w'.up);
      StepFrame(w.supervisor, w.down, w.up, w'.time, w'.supervisor, w'.down, w'.up);
    }
  }

  /** Burn and deadlines over whole runs: after a failure an endpoint never transfers again, and a
      deadline once set never moves. */
  lemma {:induction false} RunSettled(r: Run, i: nat, j: nat)
    requires IsRun(r) && i <= j < |r|
    ensures BothSettled(r[i], r[j])
    decreases j
  {
    hide Next;
    if i < j {
      RunSettled(r, i, j - 1);
      RunInv(r, j - 1);
      assert Next(r[j - 1], r[j - 1 + 1]);
      NextSettled(r[j - 1], r[j]);
    }
  }

  /** Every success beat its deadline: the fixed handshake deadline, or for a request or a terminal
      packet the outer deadline; and the socket is closed once, by the burn or the close. */
  lemma DeadlinesHold(r: Run, k: nat)
    requires IsRun(r) && k < |r|
    ensures TimeInv(r[k].host) && r[k].host.closes == (if r[k].host.socketOpen then 0 else 1)
    ensures TimeInv(r[k].supervisor) && r[k].supervisor.closes == (if r[k].supervisor.socketOpen then 0 else 1)
  {
    hide IsRun, InTurn, Fifo, PhaseInv, Counted, TimeInv;
    RunInv(r, k);
    assert OwnerInv(r[k].host, r[k].up, r[k].down) && OwnerInv(r[k].supervisor, r[k].down, r[k].up);
  }

  // ---------------------------------------------------------------- one side of a run

  function Mine(w: World, side: Side): Owner {
    if side.Host? then w.host else w.supervisor
  }

  function Outgoing(w: World, side: Side): Channel {
    if side.Host? then w.up else w.down
  }

  function Incoming(w: World, side: Side): Channel {
    if side.Host? then w.down else w.up
  }

  function Emitted(w: World, side: Side): seq<Transfer> {
    Outgoing(w, side).emitted
  }

  function Taken(w: World, side: Side): seq<Transfer> {
    Incoming(w, side).taken
  }

  /** A step of the world is a step of this side, or leaves it alone. */
  lemma SideSteps(w: World, w': World, side: Side) returns (out: Channel, inc: Channel, out': Channel, inc': Channel)
    requires Inv(w) && Next(w, w')
    ensures OwnerInv(Mine(w, side), out, inc)
    ensures out.emitted == Emitted(w, side) && out'.emitted == Emitted(w', side)
    ensures inc.taken == Taken(w, side) && inc'.taken == Taken(w', side)
    ensures || Step(Mine(w, side), out, inc, w'.time, Mine(w', side), out', inc')
            || (Mine(w', side) == Mine(w, side) && out'.emitted == out.emitted && inc'.taken == inc.taken)
  {
    hide OwnerInv, Step, Fifo;
    out, inc, out', inc' := Outgoing(w, side), Incoming(w, side), Outgoing(w', side), Incoming(w', side);
    if Step(w.host, w.up, w.down, w'.time, w'.host, w'.up, w'.down) && w'.supervisor == w.supervisor {
      StepFrame(w.host, w.up, w.down, w'.time, w'.host, w'.up, w'.down);
    } else {
      StepFrame(w.supervisor, w.down, w.up, w'.time, w'.supervisor, w'.down, w'.up);
    }
  }

  // ---------------------------------------------------------------- when a closed endpoint's counters lag

  lemma ClosingStep(e: Owner, out: Channel, inc: Channel, time: nat, e': Owner, out': Channel, inc': Channel)
    requires OwnerInv(e, out, inc) && Step(e, out, inc, time, e', out', inc') && e.socketOpen && !e'.socketOpen
    ensures |out'.emitted| == e'.outgoing + (if e.phase.Sent? then 1 else 0)
    ensures |inc'.taken| == e'.incoming + (if e.phase.Received? || inc'.taken != inc.taken then 1 else 0)
  {
    hide RuleOf, Counts, InTurn, TimeInv, HasTurn;
  }

  lemma {:induction false} ClosedSometime(r: Run, side: Side, j: nat) returns (i: nat)
    requires IsRun(r) && j < |r| && !Mine(r[j], side).socketOpen
    ensures i < j && Mine(r[i], side).socketOpen && !Mine(r[i + 1], side).socketOpen
    decreases j
  {
    hide Next;
    if Mine(r[j - 1], side).socketOpen {
      i := j - 1;
    } else {
      i := ClosedSometime(r, side, j - 1);
    }
  }

  /** Exactly when the counters of a closed endpoint lag.  There is one step that closed it; ever after
      the outgoing counter is one behind if and only if that step found a packet sent but not yet
      confirmed in time, and the incoming one if and only if it gave up a packet taken then or just
      before. */
  lemma LagExact(r: Run, side: Side, j: nat) returns (i: nat)
    requires IsRun(r) && j < |r| && !Mine(r[j], side).socketOpen
    ensures i < j && Mine(r[i], side).socketOpen && !Mine(r[i + 1], side).socketOpen
    ensures |Emitted(r[j], side)| == Mine(r[j], side).outgoing + (if Mine(r[i], side).phase.Sent? then 1 else 0)
    ensures |Taken(r[j], side)| == Mine(r[j], side).incoming
            + (if Mine(r[i], side).phase.Received? || Taken(r[i + 1], side) != Taken(r[i], side) then 1 else 0)
  {
    hide Next, Inv, OwnerInv, Step;
    i := ClosedSometime(r, side, j);
    RunInv(r, i);
    assert Next(r[i], r[i + 1]);
    var out, inc, out', inc' := SideSteps(r[i], r[i + 1], side);
    ClosingStep(Mine(r[i], side), out, inc, r[i + 1].time, Mine(r[i + 1], side), out', inc');
    RunSettled(r, i + 1, j);
  }

  // ---------------------------------------------------------------- one call of a run

  /** From world i, outside, this side enters a call and is inside it until world k. */
  ghost predicate InCall(r: Run, side: Side, i: nat, k: nat) {
    && i < k < |r| && Mine(r[i], side).phase.Outside?
    && forall n :: i < n <= k ==> !Mine(r[n], side).phase.Outside?
  }

  /** Sequence t is s, or s and one more transfer of method m. */
  predicate Grew(s: seq<Transfer>, t: seq<Transfer>, m: Method, more: bool) {
    if more then |t| == |s| + 1 && s <= t && t[|s|].m == m else t == s
  }

  /** What holds inside a call of method m: nothing is counted, and at most the packet in hand has moved. */
  ghost predicate Pending(w: World, w': World, side: Side, m: Method) {
    var e, e' := Mine(w, side), Mine(w', side);
    && !e'.phase.Outside? && e'.phase.m == m
    && e'.outgoing == e.outgoing && e'.incoming == e.incoming && e'.completed == e.completed && e'.state == e.state
    && Grew(Emitted(w, side), Emitted(w', side), m, e'.phase.Sent?)
    && Grew(Taken(w, side), Taken(w', side), m, e'.phase.Received?)
  }

  lemma EnterStep(e: Owner, out: Channel, inc: Channel, time: nat, e': Owner, out': Channel, inc': Channel)
    requires e.phase.Outside? && !e'.phase.Outside? && Step(e, out, inc, time, e', out', inc')
    ensures out' == out && inc' == inc && (e'.phase.Sending? || e'.phase.Receiving?)
    ensures e'.outgoing == e.outgoing && e'.incoming == e.incoming && e'.completed == e.completed && e'.state == e.state
  {
    hide RuleOf;
  }

  lemma InsideStep(e: Owner, out: Channel, inc: Channel, time: nat, e': Owner, out': Channel, inc': Channel)
    requires !e.phase.Outside? && !e'.phase.Outside? && Step(e, out, inc, time, e', out', inc')
    ensures e'.phase.m == e.phase.m && !e.phase.Sent? && !e.phase.Received?
    ensures e'.outgoing == e.outgoing && e'.incoming == e.incoming && e'.completed == e.completed && e'.state == e.state
    ensures Grew(out.emitted, out'.emitted, e.phase.m, e'.phase.Sent?)
            && Grew(inc.taken, inc'.taken, e.phase.m, e'.phase.Received?)
  {
    hide RuleOf;
  }

  lemma {:induction false} CallPending(r: Run, side: Side, i: nat, k: nat)
    requires IsRun(r) && InCall(r, side, i, k)
    ensures Pending(r[i], r[k], side, Mine(r[i + 1], side).phase.m)
    decreases k
  {
    hide Next, Inv, OwnerInv, Step;
    RunInv(r, k - 1);
    assert Next(r[k - 1], r[k - 1 + 1]);
    var out, inc, out', inc' := SideSteps(r[k - 1], r[k], side);
    var e, e' := Mine(r[k - 1], side), Mine(r[k], side);
    if k == i + 1 {
      EnterStep(e, out, inc, r[k].time, e', out', inc');
    } else {
      CallPending(r, side, i, k - 1);
      if Step(e, out, inc, r[k].time, e', out', inc') {
        InsideStep(e, out, inc, r[k].time, e', out', inc');
      }
    }
  }

  lemma LeaveStep(e: Owner, out: Channel, inc: Channel, time: nat, e': Owner, out': Channel, inc': Channel)
    requires OwnerInv(e, out, inc) && !e.phase.Outside? && e'.phase.Outside? && Step(e, out, inc, time, e', out', inc')
    ensures if e'.socketOpen then
              && (e.phase.Sent? || e.phase.Received?) && out'.emitted == out.emitted && inc'.taken == inc.taken
              && e'.completed == e.completed + [Completion(e.phase.m, time)] && e'.state == RuleOf(e.phase.m).next
              && e'.outgoing == e.outgoing + (if e.phase.Sent? then 1 else 0)
              && e'.incoming == e.incoming + (if e.phase.Sent? then 0 else 1)
            else
              e'.outgoing == e.outgoing && e'.incoming == e.incoming && e'.completed == e.completed
              && e'.state == e.state
  {
    hide Counts, InTurn, HasTurn;
  }

  /** Calls are atomic: over every run, a call that ends with the socket open has moved exactly one packet,
      by its own method and in its direction, and counted it; one that ends with the socket closed has
      counted nothing. */
  lemma CallAtomic(r: Run, side: Side, i: nat, k: nat)
    requires IsRun(r) && InCall(r, side, i, k) && k + 1 < |r| && Mine(r[k + 1], side).phase.Outside?
    ensures var e, e', m := Mine(r[i], side), Mine(r[k + 1], side), Mine(r[k], side).phase.m;
            if e'.socketOpen then
              && e'.completed == e.completed + [Completion(m, r[k + 1].time)] && e'.state == RuleOf(m).next
              && e'.outgoing + e'.incoming == e.outgoing + e.incoming + 1
              && Grew(Emitted(r[i], side), Emitted(r[k + 1], side), m, e'.outgoing > e.outgoing)
              && Grew(Taken(r[i], side), Taken(r[k + 1], side), m, e'.incoming > e.incoming)
            else
              e'.completed == e.completed && e'.state == e.state && e'.outgoing == e.outgoing
              && e'.incoming == e.incoming
  {
    hide Next, Inv, OwnerInv, Step, RuleOf;
    CallPending(r, side, i, k);
    RunInv(r, k);
    assert Next(r[k], r[k + 1]);
    var out, inc, out', inc' := SideSteps(r[k], r[k + 1], side);
    LeaveStep(Mine(r[k], side), out, inc, r[k + 1].time, Mine(r[k + 1], side), out', inc');
  }

  // ---------------------------------------------------------------- a complete session

  const FAR := 5 * IO_BUDGET

  function Other(side: Side): Side {
    if side.Host? then Supervisor else Host
  }

  /** Between calls in a state of the session, with deadlines far away. */
  predicate Poised(e: Owner, side: Side, state: nat) {
    && e.side == side && e.state == state && (e.outgoing, e.incoming) == Counts(side, state) && e.phase.Outside?
    && e.socketOpen && e.disposition == (if state == LastState(side) then Terminal else Open)
    && e.handshakeDeadline == FAR && (e.outerDeadline == 0 || e.outerDeadline == FAR)
  }

  function WithSide(w: World, side: Side, e: Owner, out: Channel, inc: Channel): World {
    if side.Host? then w.(host := e, up := out, down := inc) else w.(supervisor := e, down := out, up := inc)
  }

  lemma Extended(r: Run, side: Side, e: Owner, out: Channel, inc: Channel) returns (r': Run)
    requires IsRun(r)
    requires var w := r[|r| - 1]; Step(Mine(w, side), Outgoing(w, side), Incoming(w, side), w.time, e, out, inc)
    ensures IsRun(r') && r'[|r'| - 1] == WithSide(r[|r| - 1], side, e, out, inc)
  {
    hide Step, Init;
    var w := r[|r| - 1];
    var w' := WithSide(w, side, e, out, inc);
    assert Next(w, w');
    r' := r + [w'];
  }

  lemma SendPoised(e: Owner, m: Method)
    requires Poised(e, RuleOf(m).side, RuleOf(m).state) && RuleOf(m).sends && RuleOf(m).limit > 0
    ensures var c := Call(m, true, [0], 1, FAR); var begun := Begin(e, c, Some(0));
            && begun.phase.Sending? && begun.phase.m == m && begun.phase.packet == [0]
            && var sent := AfterSend(Peek(begun, true), true);
               Poised(FinishSend(sent, Some(0)), RuleOf(m).side, RuleOf(m).next)
  {
  }

  lemma TakePoised(e: Owner, m: Method)
    requires Poised(e, RuleOf(m).side, RuleOf(m).state) && !RuleOf(m).sends
    ensures var c := Call(m, true, [0], 1, FAR); var begun := Begin(e, c, Some(0));
            && begun.phase.Receiving? && begun.phase.m == m
            && var taken := AfterTake(begun, [0], true);
               taken.phase.Received? && Poised(FinishReceive(taken, Some(0), true), RuleOf(m).side, RuleOf(m).next)
  {
  }

  lemma SendPacket(r: Run, m: Method) returns (r': Run)
    requires IsRun(r) && RuleOf(m).sends && RuleOf(m).limit > 0
    requires var w, side := r[|r| - 1], RuleOf(m).side;
             w.time == 0 && Poised(Mine(w, side), side, RuleOf(m).state) && Incoming(w, side).queue == []
    ensures IsRun(r')
    ensures var w, w', side := r[|r| - 1], r'[|r'| - 1], RuleOf(m).side;
            && w'.time == 0 && Poised(Mine(w', side), side, RuleOf(m).next)
            && Mine(w', Other(side)) == Mine(w, Other(side))
            && Outgoing(w', side).queue == Outgoing(w, side).queue + [[0]] && Incoming(w', side).queue == []
  {
    hide RuleOf, Next, Init, Begin, Poised, Succeeded;
    var w, side := r[|r| - 1], RuleOf(m).side;
    var e, out, inc := Mine(w, side), Outgoing(w, side), Incoming(w, side);
    SendPoised(e, m);
    var begun := Begin(e, Call(m, true, [0], 1, FAR), Some(0));
    assert e.phase.Outside? by { PoisedOutside(e, side, RuleOf(m).state); }
    r' := Extended(r, side, begun, out, inc);
    r' := Extended(r', side, Peek(begun, true), out, inc);
    var sent := AfterSend(Peek(begun, true), true);
    r' := Extended(r', side, sent, Emit(out, m, [0]), inc);
    r' := Extended(r', side, FinishSend(sent, Some(0)), Emit(out, m, [0]), inc);
  }

  lemma PoisedOutside(e: Owner, side: Side, state: nat)
    requires Poised(e, side, state)
    ensures e.phase.Outside?
  {
  }

  lemma TakePacket(r: Run, m: Method) returns (r': Run)
    requires IsRun(r) && !RuleOf(m).sends
    requires var w, side := r[|r| - 1], RuleOf(m).side;
             w.time == 0 && Poised(Mine(w, side), side, RuleOf(m).state) && Incoming(w, side).queue == [[0]]
    ensures IsRun(r')
    ensures var w, w', side := r[|r| - 1], r'[|r'| - 1], RuleOf(m).side;
            && w'.time == 0 && Poised(Mine(w', side), side, RuleOf(m).next)
            && Mine(w', Other(side)) == Mine(w, Other(side))
            && Outgoing(w', side).queue == Outgoing(w, side).queue && Incoming(w', side).queue == []
  {
    hide RuleOf, Next, Init, Begin, Poised, Succeeded, Admissible;
    var w, side := r[|r| - 1], RuleOf(m).side;
    var e, out, inc := Mine(w, side), Outgoing(w, side), Incoming(w, side);
    TakePoised(e, m);
    var begun := Begin(e, Call(m, true, [0], 1, FAR), Some(0));
    assert e.phase.Outside? by { PoisedOutside(e, side, RuleOf(m).state); }
    r' := Extended(r, side, begun, out, inc);
    var taken := AfterTake(begun, [0], true);
    r' := Extended(r', side, taken, out, Take(inc, m));
    r' := Extended(r', side, FinishReceive(taken, Some(0), true), out, Take(inc, m));
  }

  /** A run that has brought the two sides to these states, with nothing on the wire. */
  ghost predicate Reached(r: Run, host: nat, supervisor: nat) {
    && IsRun(r)
    && var w := r[|r| - 1];
    && w.time == 0 && w.up.queue == [] && w.down.queue == []
    && Poised(w.host, Host, host) && Poised(w.supervisor, Supervisor, supervisor)
  }

  /** One packet sent and taken. */
  lemma Exchange(r: Run, m: Method, m': Method) returns (r': Run)
    requires Matches(m, m') && RuleOf(m).limit > 0
    requires if RuleOf(m).side.Host? then Reached(r, RuleOf(m).state, RuleOf(m').state)
             else Reached(r, RuleOf(m').state, RuleOf(m).state)
    ensures if RuleOf(m).side.Host? then Reached(r', RuleOf(m).next, RuleOf(m').next)
            else Reached(r', RuleOf(m').next, RuleOf(m).next)
  {
    hide Poised, Next, Init;
    assert RuleOf(m).sends && !RuleOf(m').sends && RuleOf(m').side == Other(RuleOf(m).side);
    hide RuleOf, Matches;
    r' := SendPacket(r, m);
    r' := TakePacket(r', m');
  }

  lemma SessionStarts() returns (r: Run)
    ensures Reached(r, FirstState(Host), FirstState(Supervisor))
  {
    var host := Owner(Host, 0, 0, 0, FAR, 0, Open, true, 0, Outside, []);
    var supervisor := Owner(Supervisor, 1, 0, 0, FAR, 0, Open, true, 0, Outside, []);
    r := [World(host, supervisor, Channel([], [], []), Channel([], [], []), 0)];
  }

  /** The session can be completed: a run that takes the host to its terminal packet. */
  lemma SessionCompletes() returns (r: Run)
    ensures Reached(r, LastState(Host), LastState(Supervisor))
  {
    hide Reached;
    r := SessionStarts();
    r := Exchange(r, HostSendsHello, SupervisorTakesHello);
    r := Exchange(r, SupervisorSendsHello, HostTakesHello);
    r := Exchange(r, HostSendsConfirmation, SupervisorTakesConfirmation);
    r := Exchange(r, HostSendsRequest, SupervisorTakesRequest);
    r := Exchange(r, SupervisorSendsTerminal(Result), HostTakesTerminal);
  }

  // ---------------------------------------------------------------- packet sizes

  predicate Fits(m: Method, packet: Packet) {
    0 < |packet| <= RuleOf(m).limit && |packet| <= PACKET_LIMIT
  }

  /** Everything sent, and everything about to be sent, is within the limit of its method. */
  predicate FitInv(e: Owner, out: Channel) {
    && (e.phase.Sending? || e.phase.Ready? ==> Fits(e.phase.m, e.phase.packet))
    && forall k :: 0 <= k < |out.emitted| ==> Fits(out.emitted[k].m, out.emitted[k].packet)
  }

  lemma StepFits(e: Owner, out: Channel, inc: Channel, time: nat, e': Owner, out': Channel, inc': Channel)
    requires FitInv(e, out) && Step(e, out, inc, time, e', out', inc')
    ensures FitInv(e', out')
  {
    hide RuleOf;
  }

  lemma {:induction false} RunFits(r: Run, k: nat)
    requires IsRun(r) && k < |r|
    ensures FitInv(r[k].host, r[k].up) && FitInv(r[k].supervisor, r[k].down)
  {
    hide Step, Fits;
    if k > 0 {
      RunFits(r, k - 1);
      var w, w' := r[k - 1], r[k - 1 + 1];
      assert Next(w, w');
      if Step(w.host, w.up, w.down, w'.time, w'.host, w'.up, w'.down) && w'.supervisor == w.supervisor {
        StepFits(w.host, w.up, w.down, w'.time, w'.host, w'.up, w'.down);
        StepFrame(w.host, w.up, w.down, w'.time, w'.host, w'.up, w'.down);
      } else {
        StepFits(w.supervisor, w.down, w.up, w'.time, w'.supervisor, w'.down, w'.up);
        StepFrame(w.supervisor, w.down, w.up, w'.time, w'.supervisor, w'.down, w'.up);
      }
    }
  }

  lemma LimitsMatch(sender: Method, taker: Method, packet: Packet)
    requires Matches(sender, taker) && Fits(sender, packet)
    ensures Admissible(taker, packet, true)
  {
  }

  ghost predicate AllAdmissible(c: Channel) {
    forall k :: 0 <= k < |c.taken| ==> Admissible(c.taken[k].m, c.taken[k].packet, true)
  }

  lemma ChannelAdmissible(c: Channel)
    requires Agrees(c) && forall k :: 0 <= k < |c.emitted| ==> Fits(c.emitted[k].m, c.emitted[k].packet)
    ensures AllAdmissible(c)
  {
    hide Matches, Fits, Admissible;
    forall k | 0 <= k < |c.taken|
      ensures Admissible(c.taken[k].m, c.taken[k].packet, true)
    {
      LimitsMatch(c.emitted[k].m, c.taken[k].m, c.emitted[k].packet);
    }
  }

  /** The size limits of the two sides agree: no packet a peer sends exceeds the limit of the method that
      takes it.  A caller's own buffer may still be too small. */
  lemma WithinTakersLimit(r: Run, k: nat)
    requires IsRun(r) && k < |r|
    ensures AllAdmissible(r[k].up) && AllAdmissible(r[k].down)
  {
    hide IsRun, AllAdmissible, Agrees, Fits;
    SessionAgreement(r, k);
    RunFits(r, k);
    ChannelAdmissible(r[k].up);
    ChannelAdmissible(r[k].down);
  }

  // ---------------------------------------------------------------- the owner object

  /** What the system calls of one send answer. */
  datatype SendAnswers = SendAnswers(start: Option<nat>, clear: bool, sent: bool, finish: Option<nat>)

  datatype ReceiveAnswers = ReceiveAnswers(start: Option<nat>, received: Option<Packet>, plain: bool,
                                           finish: Option<nat>, clear: bool)

  /** An uninterrupted send: the steps one after the other, and whether the packet went out. */
  function SendCall(e: Owner, c: Call, a: SendAnswers): (Owner, bool) {
    var begun := Begin(e, c, a.start);
    if !begun.phase.Sending? then (begun, false)
    else
      var peeked := Peek(begun, a.clear);
      if !peeked.phase.Ready? then (peeked, false)
      else
        var sent := AfterSend(peeked, a.sent);
        if !sent.phase.Sent? then (sent, false) else (FinishSend(sent, a.finish), true)
  }

  function ReceiveCall(e: Owner, c: Call, a: ReceiveAnswers): (Owner, bool) {
    var begun := Begin(e, c, a.start);
    if !begun.phase.Receiving? then (begun, false)
    else if a.received.None? then (Burn(begun), false)
    else
      var taken := AfterTake(begun, a.received.value, a.plain);
      if !taken.phase.Received? then (taken, true) else (FinishReceive(taken, a.finish, a.clear), true)
  }

  /** The deadline a call gets at its entry, if it is let in. */
  function EntryDeadline(e: Owner, c: Call, now: Option<nat>): Option<nat> {
    if Admitted(e, c) then IoDeadline(e, RuleOf(c.m).bindsOuter, c.outerDeadline, now).1 else None
  }

  /** The packet goes out, and the clock then fails or has reached the deadline. */
  predicate SentLate(e: Owner, c: Call, a: SendAnswers) {
    var deadline := EntryDeadline(e, c, a.start);
    deadline.Some? && a.clear && a.sent && (a.finish.None? || a.finish.value >= deadline.value)
  }

  /** A packet is taken, and is then inadmissible, late, too long for the caller, or followed by another. */
  predicate TakenInVain(e: Owner, c: Call, a: ReceiveAnswers) {
    var deadline := EntryDeadline(e, c, a.start);
    && deadline.Some? && a.received.Some?
    && (|| !Admissible(c.m, a.received.value, a.plain)
        || a.finish.None? || a.finish.value >= deadline.value
        || |a.received.value| > c.capacity || !a.clear)
  }

  class Endpoint {
    const side: Side
    const handshakeDeadline: nat
    var state: nat
    var outgoing: nat
    var incoming: nat
    var outerDeadline: nat
    var disposition: Disposition
    var socketOpen: bool
    var closes: nat
    var completed: seq<Completion>

    ghost function Value(): Owner
      reads this
    {
      Owner(side, state, outgoing, incoming, handshakeDeadline, outerDeadline, disposition, socketOpen, closes, Outside,
            completed)
    }

    constructor (s: Side, deadline: nat)
      ensures IsNew(Value(), s) && handshakeDeadline == deadline
    {
      side := s;
      handshakeDeadline := deadline;
      state := FirstState(s);
      outgoing, incoming, outerDeadline, closes := 0, 0, 0, 0;
      disposition := Open;
      socketOpen := true;
      completed := [];
    }

    /** Only the owner burns. */
    method BurnBy(owner: bool)
      modifies this
      ensures Value() == if owner then Burn(old(Value())) else old(Value())
    {
      if !owner {
        return;
      }
      if socketOpen {
        closes := closes + 1;
      }
      socketOpen := false;
      disposition := Burned;
    }

    method FindDeadline(bindsOuter: bool, outer: nat, now: Option<nat>) returns (deadline: Option<nat>)
      modifies this`outerDeadline
      ensures (Value(), deadline) == IoDeadline(old(Value()), bindsOuter, outer, now)
    {
      if now.None? || now.value > TIME_MAXIMUM - IO_BUDGET {
        return None;
      }
      var effective := now.value + IO_BUDGET;
      if bindsOuter {
        if outer == 0 || outer > TIME_MAXIMUM {
          return None;
        }
        if outerDeadline == 0 {
          outerDeadline := outer;
        } else if outerDeadline != outer {
          return None;
        }
        effective := Minimum(effective, outer);
      } else {
        effective := Minimum(effective, handshakeDeadline);
      }
      return if now.value >= effective then None else Some(effective);
    }

    /** Which checks a call fails before any system call but the clock. */
    method Enter(owner: bool, c: Call, now: Option<nat>) returns (deadline: Option<nat>)
      requires !disposition.Freed?
      modifies this`outerDeadline
      ensures !owner ==> deadline.None? && Value() == old(Value())
      ensures owner ==> Begin(old(Value()), c, now) == (if deadline.None? then Burn(Value()) else Value().(phase :=
                if RuleOf(c.m).sends then Sending(c.m, c.packet, deadline.value)
                else Receiving(c.m, c.capacity, deadline.value)))
    {
      var r := RuleOf(c.m);
      if !owner || !c.sound || !disposition.Open? || !socketOpen {
        return None;
      }
      if c.m == SupervisorSendsTerminal(Unknown) || side != r.side || state != r.state
         || r.counter != if r.sends then outgoing else incoming
      {
        return None;
      }
      if if r.sends then |c.packet| == 0 || |c.packet| > r.limit || |c.packet| > PACKET_LIMIT else c.capacity == 0 {
        return None;
      }
      deadline := FindDeadline(r.bindsOuter, c.outerDeadline, now);
    }

    method Succeed(m: Method, time: nat)
      modifies this
      ensures Value() == Succeeded(old(Value()), m, time)
    {
      var r := RuleOf(m);
      if r.sends {
        outgoing := r.counter + 1;
      } else {
        incoming := r.counter + 1;
      }
      state := r.next;
      if r.next == LastState(side) {
        disposition := Terminal;
      }
      completed := completed + [Completion(m, time)];
    }

    /** Every sending method. */
    method Send(owner: bool, c: Call, a: SendAnswers) returns (ok: bool, emitted: bool)
      requires RuleOf(c.m).sends && !disposition.Freed?
      modifies this
      ensures !owner ==> !ok && !emitted && Value() == old(Value())
      ensures owner ==> (Value(), emitted) == SendCall(old(Value()), c, a)
      ensures owner ==> ok == !disposition.Burned? && outgoing == old(outgoing) + if ok then 1 else 0
      ensures owner ==> (emitted && !ok <==> SentLate(old(Value()), c, a))
    {
      hide RuleOf;
      emitted := false;
      var deadline := Enter(owner, c, a.start);
      ok := deadline.Some? && a.clear && a.sent;
      if ok {
        emitted := true;
        ok := a.finish.Some? && a.finish.value < deadline.value;
      }
      if !ok {
        BurnBy(owner);
        return;
      }
      Succeed(c.m, a.finish.value);
    }

    /** Every receiving method; `output` is filled only on success. */
    method Receive(owner: bool, c: Call, a: ReceiveAnswers) returns (output: Option<Packet>, taken: bool)
      requires !RuleOf(c.m).sends && !disposition.Freed?
      modifies this
      ensures !owner ==> output.None? && !taken && Value() == old(Value())
      ensures owner ==> (Value(), taken) == ReceiveCall(old(Value()), c, a)
      ensures owner ==> output == if disposition.Burned? then None else a.received
      ensures owner ==> incoming == old(incoming) + if output.Some? then 1 else 0
      ensures owner ==> (taken && output.None? <==> TakenInVain(old(Value()), c, a))
    {
      hide RuleOf;
      taken := false;
      var deadline := Enter(owner, c, a.start);
      var ok := deadline.Some? && a.received.Some?;
      if ok {
        taken := true;
        ok := Admissible(c.m, a.received.value, a.plain)
        && a.finish.Some? && a.finish.value < deadline.value && |a.received.value| <= c.capacity && a.clear;
      }
      if !ok {
        BurnBy(owner);
        return None, taken;
      }
      Succeed(c.m, a.finish.value);
      return a.received, true;
    }
  }

  predicate ReadAt(answer: Option<nat>, time: nat) {
    answer.None? || answer.value == time
  }

  /** An uninterrupted send is a run of the step relation: it emits exactly when SendCall says so, and a
      call refused at its entry is one step. */
  lemma SendCallSteps(e: Owner, c: Call, a: SendAnswers, out: Channel, inc: Channel, start: nat, finish: nat)
    requires e.phase.Outside? && (a.clear ==> inc.queue == []) && ReadAt(a.start, start) && ReadAt(a.finish, finish)
    ensures var begun := Begin(e, c, a.start);
            && Step(e, out, inc, start, begun, out, inc)
            && if !begun.phase.Sending? then SendCall(e, c, a) == (begun, false)
               else
                 var peeked := Peek(begun, a.clear);
                 && Step(begun, out, inc, start, peeked, out, inc)
                 && if !a.clear then SendCall(e, c, a) == (peeked, false) else
                 var sent := AfterSend(peeked, a.sent); var out' := if a.sent then Emit(out, c.m, c.packet) else out;
                 && Step(peeked, out, inc, start, sent, out', inc)
                 && if !a.sent then SendCall(e, c, a) == (sent, false)
                    else Step(sent, out', inc, finish, SendCall(e, c, a).0, out', inc) && SendCall(e, c, a).1
  {
  }

  lemma ReceiveCallSteps(e: Owner, c: Call, a: ReceiveAnswers, out: Channel, inc: Channel, start: nat, finish: nat)
    requires e.phase.Outside? && ReadAt(a.start, start) && ReadAt(a.finish, finish)
    requires a.received.Some? ==> inc.queue != [] && a.received.value == inc.queue[0] && (a.clear ==> |inc.queue| == 1)
    ensures var begun := Begin(e, c, a.start);
            && Step(e, out, inc, start, begun, out, inc)
            && if !begun.phase.Receiving? then ReceiveCall(e, c, a) == (begun, false)
               else if a.received.None? then
                 Step(begun, out, inc, start, ReceiveCall(e, c, a).0, out, inc) && !ReceiveCall(e, c, a).1
               else
                 var taken := AfterTake(begun, a.received.value, a.plain); var inc' := Take(inc, c.m);
                 && Step(begun, out, inc, start, taken, out, inc')
                 && if !taken.phase.Received? then ReceiveCall(e, c, a) == (taken, true)
                    else Step(taken, out, inc', finish, ReceiveCall(e, c, a).0, out, inc') && ReceiveCall(e, c, a).1
  {
  }
}
