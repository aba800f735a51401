/** The bounded child process transaction: three pipes, a poll loop under a deadline and caps, and a
cleanup that closes every descriptor once and reaps the child once.

The kernel is a set of oracles, one answer per call.
*/
module BoundedProcess {
  import opened Bytes

  const CHUNK := 8192

  // ---------------------------------------------------------------- draining one output

  datatype Read = Data(bytes: seq<Byte>) | End | Again | Interrupted | Failed

  predicate IsRead(r: Read) {
    r.Data? ==> 0 < |r.bytes| <= CHUNK
  }

  datatype Ending = AtEnd | Blocked | Signalled | Broken | Overflowed

  /** What one drain does: the bytes it kept, all the bytes it received, how it ended, and the next call. */
  datatype Drained = Drained(kept: seq<Byte>, received: seq<Byte>, ending: Ending, next: nat)

  ghost predicate AreReads(answers: nat -> Read) {
    forall i :: IsRead(answers(i))
  }

  function EndingOf(r: Read): Ending
    requires !r.Data?
  {
    match r
    case End => AtEnd
    case Again => Blocked
    case Interrupted => Signalled
    case Failed => Broken
  }

  /** Everything the kernel delivered in calls i to j - 1. */
  function Delivered(answers: nat -> Read, i: nat, j: nat): seq<Byte>
    decreases j - i
  {
    if i >= j then [] else (if answers(i).Data? then answers(i).bytes else []) + Delivered(answers, i + 1, j)
  }

  lemma {:induction false} DeliveredSplit(answers: nat -> Read, i: nat, j: nat, k: nat)
    requires i <= j <= k
    ensures Delivered(answers, i, j) + Delivered(answers, j, k) == Delivered(answers, i, k)
    decreases j - i
  {
    if i < j {
      DeliveredSplit(answers, i + 1, j, k);
    }
  }

  /** Read until something other than data comes, or data that does not fit in the room left. */
  function Drain(answers: nat -> Read, i: nat, room: nat): (d: Drained)
    requires AreReads(answers)
    ensures |d.kept| <= room && d.next > i
    ensures d.ending.Overflowed? ==> d.kept < d.received && |d.received| > room
    ensures !d.ending.Overflowed? ==> d.kept == d.received
    ensures d.ending.AtEnd? ==> answers(d.next - 1).End?
    decreases room
  {
    match answers(i)
    case Data(bytes) =>
      assert IsRead(answers(i));
      if |bytes| > room then Drained([], bytes, Overflowed, i + 1)
      else
        Continued(bytes, Drain(answers, i + 1, room - |bytes|))
    case other => Drained([], [], EndingOf(other), i + 1)
  }

  function Continued(kept: seq<Byte>, d: Drained): Drained {
    d.(kept := kept + d.kept, received := kept + d.received)
  }

  /** A drain receives exactly what the kernel delivers to it. */
  lemma {:induction false} DrainReceives(answers: nat -> Read, i: nat, room: nat)
    requires AreReads(answers)
    ensures Drain(answers, i, room).received == Delivered(answers, i, Drain(answers, i, room).next)
    decreases room
  {
    var d := Drain(answers, i, room);
    assert Delivered(answers, i + 1, i + 1) == [];
    if answers(i).Data? && |answers(i).bytes| <= room {
      assert IsRead(answers(i));
      DrainReceives(answers, i + 1, room - |answers(i).bytes|);
    }
  }

  lemma DrainData(answers: nat -> Read, i: nat, room: nat, kept: seq<Byte>, bytes: seq<Byte>)
    requires AreReads(answers) && answers(i) == Data(bytes)
    ensures |bytes| > room ==>
              Continued(kept, Drain(answers, i, room)) == Drained(kept, kept + bytes, Overflowed, i + 1)
    ensures |bytes| <= room ==>
              Continued(kept, Drain(answers, i, room)) == Continued(kept + bytes, Drain(answers, i + 1, room - |bytes|))
  {
  }

  lemma DrainEnds(answers: nat -> Read, i: nat, room: nat, kept: seq<Byte>)
    requires AreReads(answers) && !answers(i).Data?
    ensures Continued(kept, Drain(answers, i, room)) == Drained(kept, kept, EndingOf(answers(i)), i + 1)
  {
  }

  /** A capture buffer of fixed capacity. */
  class Capture {
    const buffer: array<Byte>
    var length: nat
    var calls: nat
    const answers: nat -> Read
    ghost var received: seq<Byte>
    ghost var overflowed: bool

    constructor (cap: nat, r: nat -> Read)
      requires AreReads(r)
      ensures Valid() && fresh(buffer) && buffer.Length == cap && length == 0 && received == [] && !overflowed
              && answers == r
    {
      buffer := new Byte[cap](_ => 0);
      length, calls, answers := 0, 0, r;
      received, overflowed := [], false;
    }

    /** Until it overflows the buffer holds exactly what was received. */
    ghost predicate Valid()
      reads this, buffer
    {
      && AreReads(answers) && length <= buffer.Length
      && received == Delivered(answers, 0, calls)
      && (if overflowed then buffer[..length] < received && |received| > buffer.Length
          else buffer[..length] == received)
    }

    /** The last read reported the end. */
    ghost predicate Ended()
      reads this
    {
      calls > 0 && answers(calls - 1).End?
    }

    /** Drain the descriptor into the buffer. */
    method ReadCapture() returns (ending: Ending)
      requires Valid() && !overflowed
      modifies this`length, this`calls, this`received, this`overflowed, buffer
      ensures Valid() && length >= old(length) && (ending.AtEnd? ==> Ended())
      ensures var d := Drain(answers, old(calls), buffer.Length - old(length));
              && ending == d.ending && calls == d.next && overflowed == d.ending.Overflowed?
              && received == old(received) + d.received && buffer[..length] == old(buffer[..length]) + d.kept
    {
      hide Drain, Delivered;
      ghost var room, kept: seq<Byte>, first, before := buffer.Length - length, [], calls, received;
      NothingContinued(Drain(answers, calls, room));
      DrainReceives(answers, calls, room);
      DeliveredSplit(answers, 0, calls, Drain(answers, calls, room).next);
      while true
        invariant length <= buffer.Length && !overflowed && length >= old(length)
        invariant buffer[..length] == before + kept && received == before + kept
        invariant Drain(answers, first, room) == Continued(kept, Drain(answers, calls, buffer.Length - length))
        decreases buffer.Length - length
      {
        var answer := answers(calls);
        assert IsRead(answer);
        if answer.Data? {
          DrainData(answers, calls, buffer.Length - length, kept, answer.bytes);
          Regrouped(before, kept, answer.bytes);
          received := received + answer.bytes;
          calls := calls + 1;
          if |answer.bytes| > buffer.Length - length {
            overflowed := true;
            return Overflowed;
          }
          Append(answer.bytes);
          kept := kept + answer.bytes;
        } else {
          DrainEnds(answers, calls, buffer.Length - length, kept);
          calls := calls + 1;
          return EndingOf(answer);
        }
      }
    }

    method Append(bytes: seq<Byte>)
      requires length + |bytes| <= buffer.Length
      modifies this`length, buffer
      ensures length == old(length) + |bytes| && buffer[..length] == old(buffer[..length]) + bytes
    {
      forall i | 0 <= i < |bytes| {
        buffer[length + i] := bytes[i];
      }
      length := length + |bytes|;
    }
  }

  lemma NothingContinued(d: Drained)
    ensures Continued([], d) == d
  {
  }

  lemma Regrouped(a: seq<Byte>, b: seq<Byte>, c: seq<Byte>)
    ensures a + b + c == a + (b + c)
  {
  }

  // ---------------------------------------------------------------- the transaction

  datatype Event = Ready | Quiet | Invalid

  datatype Poll = Events(input: Event, output: Event, error: Event) | PollInterrupted | PollFailed

  datatype Write = Wrote(count: nat) | WouldBlock | WriteInterrupted | BrokenPipe | WriteFailed

  datatype Wait = Running | Exited | WaitInterrupted | WaitFailed

  datatype Kill = Killed | KillInterrupted | NoProcess | KillFailed

  datatype Reap = Child | ReapInterrupted | ReapFailed

  /** Every answer the kernel will give.  Poll, clock, signal and wait answers are per round.  No more than
      `patience` signals in a row interrupt the killing or the reaping. */
  datatype Kernel = Kernel(
    prepared: bool, spawned: bool, destroyed: bool, restored: bool,
    interrupted: nat -> bool, now: nat -> Option<nat>, poll: nat -> Poll, wait: nat -> Wait,
    write: nat -> Write, closes: nat -> bool, kill: nat -> Kill, reap: nat -> Reap, patience: nat)

  predicate IsPatient(k: Kernel) {
    !k.kill(k.patience).KillInterrupted? && !k.reap(k.patience).ReapInterrupted?
  }

  /** How often the child was handed over in the first n calls of waitpid. */
  function TimesReaped(reap: nat -> Reap, n: nat): nat {
    if n == 0 then 0 else TimesReaped(reap, n - 1) + if reap(n - 1).Child? then 1 else 0
  }

  datatype Outcome = Ok | Interrupt | SystemError | Timeout | Overflow

  datatype Result = FailStop | Raised(outcome: Outcome) | Completed(out: seq<Byte>, err: seq<Byte>)

  /** The clock reaches the deadline, or breaks, by this round. */
  predicate ExpiresBy(k: Kernel, deadline: nat, limit: nat) {
    k.now(limit).None? || k.now(limit).value >= deadline
  }

  predicate ReachedAt(k: Kernel, deadline: nat, round: nat) {
    k.now(round).Some? && k.now(round).value >= deadline
  }

  /** A run is cut short by the signal or by the clock exactly in the last round it executed; in every round
      before, neither said so. */
  ghost predicate Justified(k: Kernel, deadline: nat, outcome: Outcome, rounds: nat) {
    && (outcome == Interrupt <==> rounds > 0 && k.interrupted(rounds - 1))
    && (outcome == Timeout <==> rounds > 0 && !k.interrupted(rounds - 1) && ReachedAt(k, deadline, rounds - 1))
    && forall n :: 0 <= n < rounds - 1 ==> !k.interrupted(n) && !ReachedAt(k, deadline, n)
  }

  lemma JustifiedAtFirst(k: Kernel, deadline: nat, outcome: Outcome)
    requires outcome != Interrupt && outcome != Timeout
    ensures Justified(k, deadline, outcome, 0)
  {
  }

  lemma JustifiedNext(k: Kernel, deadline: nat, outcome: Outcome, round: nat)
    requires Justified(k, deadline, Ok, round)
    requires outcome == Interrupt <==> k.interrupted(round)
    requires outcome == Timeout <==> !k.interrupted(round) && ReachedAt(k, deadline, round)
    ensures Justified(k, deadline, outcome, round + 1)
  {
  }

  const STDIN_READ := 0
  const STDIN_WRITE := 1
  const STDOUT_READ := 2
  const STDOUT_WRITE := 3
  const STDERR_READ := 4
  const STDERR_WRITE := 5

  /** A descriptor is still owned, or it was closed once, or it was never opened. */
  predicate AccountedOne(given: int, fd: int, closes: nat) {
    if given < 0 then fd < 0 && closes == 0 else (fd == given && closes == 0) || (fd == -1 && closes == 1)
  }

  predicate Accounted(given: seq<int>, fd: seq<int>, closes: seq<nat>) {
    |given| == |fd| == |closes| == 6 && forall i :: 0 <= i < 6 ==> AccountedOne(given[i], fd[i], closes[i])
  }

  class Transaction {
    const kernel: Kernel
    const given: seq<int>
    const payload: seq<Byte>
    const out: Capture
    const err: Capture
    var fd: seq<int>
    var closes: seq<nat>
    var closeCalls: nat
    var closeFailed: bool
    var offset: nat
    var writeCalls: nat
    var childExited: bool
    var rounds: nat
    var killCalls: nat
    var reapCalls: nat
    ghost var sent: seq<Byte>

    ghost predicate Valid()
      reads this, out, err, out.buffer, err.buffer
    {
      && out != err && out.buffer != err.buffer && out.Valid() && err.Valid()
      && |fd| == 6 && Accounted(given, fd, closes)
      && offset <= |payload| && sent == payload[..offset]
    }

    /** While polling, an output is closed because its end was read. */
    ghost predicate Polling()
      reads this, out, err, out.buffer, err.buffer
    {
      && Valid()
      && (fd[STDOUT_READ] < 0 ==> out.Ended()) && (fd[STDERR_READ] < 0 ==> err.Ended())
    }

    constructor (k: Kernel, descriptors: seq<int>, input: seq<Byte>, o: Capture, e: Capture)
      requires |descriptors| == 6 && o != e && o.buffer != e.buffer && o.Valid() && e.Valid()
      ensures Valid() && kernel == k && given == descriptors && fd == descriptors && payload == input && out == o
              && err == e
      ensures rounds == killCalls == reapCalls == 0 && offset == 0 && !closeFailed && !childExited
    {
      kernel, given, payload, out, err := k, descriptors, input, o, e;
      fd, closes := descriptors, seq(6, _ => 0);
      closeCalls, closeFailed, offset, writeCalls, childExited := 0, false, 0, 0, false;
      rounds, killCalls, reapCalls := 0, 0, 0;
      sent := [];
    }

    method CloseOnce(i: nat)
      requires Valid() && i < 6
      modifies this`fd, this`closes, this`closeCalls, this`closeFailed
      ensures Valid() && fd == old(fd)[i := fd[i]] && fd[i] < 0
    {
      hide AreReads, Delivered;
      var owned := fd[i];
      fd := fd[i := if owned >= 0 then -1 else owned];
      if owned >= 0 {
        closes := closes[i := closes[i] + 1];
        closeFailed := closeFailed || !kernel.closes(closeCalls);
        closeCalls := closeCalls + 1;
      }
    }

    method Advance(count: nat)
      requires Polling()
      modifies this`fd, this`closes, this`closeCalls, this`closeFailed, this`offset, this`sent
      ensures Polling() && offset >= old(offset) && fd == old(fd)[STDIN_WRITE := fd[STDIN_WRITE]]
    {
      hide Accounted, AreReads, Delivered;
      var written := if count < |payload| - offset then count else |payload| - offset;
      sent := sent + payload[offset..offset + written];
      offset := offset + written;
      if offset == |payload| {
        CloseOnce(STDIN_WRITE);
      }
    }

    /** Feed the child; its input is closed once everything is written, or it stops reading. */
    method WriteStdin() returns (ok: bool)
      requires Polling()
      modifies this`fd, this`closes, this`closeCalls, this`closeFailed, this`offset, this`sent, this`writeCalls
      ensures Polling() && offset >= old(offset)
      ensures fd == old(fd)[STDIN_WRITE := fd[STDIN_WRITE]]
    {
      hide Accounted, AreReads, Delivered;
      if offset == |payload| {
        CloseOnce(STDIN_WRITE);
        return true;
      }
      var answer := kernel.write(writeCalls);
      writeCalls := writeCalls + 1;
      match answer
      case Wrote(count) =>
        if count == 0 {
          return false;
        }
        Advance(count);
        return true;
      case WouldBlock => return true;
      case WriteInterrupted => return true;
      case BrokenPipe =>
        CloseOnce(STDIN_WRITE);
        return true;
      case WriteFailed => return false;
    }

    /** Drain one output that poll reported. */
    method ServeOutput(error: bool) returns (outcome: Outcome)
      requires Polling() && fd[if error then STDERR_READ else STDOUT_READ] >= 0 && !out.overflowed && !err.overflowed
      modifies this`fd, this`closes, this`closeCalls, this`closeFailed
      modifies out`length, out`calls, out`received, out`overflowed, out.buffer
      modifies err`length, err`calls, err`received, err`overflowed, err.buffer
      ensures Polling() && (outcome == Overflow <==> out.overflowed || err.overflowed)
              && outcome in {Ok, SystemError, Overflow}
    {
      hide Accounted, Drain, AreReads, Delivered;
      var ending;
      if error {
        ending := err.ReadCapture();
      } else {
        ending := out.ReadCapture();
      }
      match ending
      case AtEnd =>
        CloseOnce(if error then STDERR_READ else STDOUT_READ);
        return Ok;
      case Blocked => return Ok;
      case Signalled => return Ok;
      case Broken => return SystemError;
      case Overflowed => return Overflow;
    }

    /** One descriptor of the poll set: it is served if it is still ours and poll named it. */
    method Serve(i: nat, event: Event) returns (outcome: Outcome)
      requires Polling() && !out.overflowed && !err.overflowed && i in {STDIN_WRITE, STDOUT_READ, STDERR_READ}
      modifies this`fd, this`closes, this`closeCalls, this`closeFailed, this`offset, this`sent, this`writeCalls
      modifies out`length, out`calls, out`received, out`overflowed, out.buffer
      modifies err`length, err`calls, err`received, err`overflowed, err.buffer
      ensures Polling() && (outcome == Overflow <==> out.overflowed || err.overflowed)
              && outcome in {Ok, SystemError, Overflow}
    {
      hide Accounted, AreReads, Delivered;
      if fd[i] < 0 || event == Quiet {
        return Ok;
      }
      if event == Invalid {
        return SystemError;
      }
      if i == STDIN_WRITE {
        var ok := WriteStdin();
        return if ok then Ok else SystemError;
      }
      outcome := ServeOutput(i == STDERR_READ);
    }

    /** One turn of the poll loop; `done` when the child has exited and both outputs have ended. */
    method Turn(deadline: nat, round: nat) returns (outcome: Outcome, done: bool)
      requires Polling() && !out.overflowed && !err.overflowed
      modifies this`fd, this`closes, this`closeCalls, this`closeFailed, this`offset, this`sent, this`writeCalls,
               this`childExited
      modifies out`length, out`calls, out`received, out`overflowed, out.buffer
      modifies err`length, err`calls, err`received, err`overflowed, err.buffer
      ensures Polling() && (outcome == Overflow <==> out.overflowed || err.overflowed)
      ensures done ==> outcome == Ok && childExited && out.Ended() && err.Ended()
      ensures outcome == Interrupt <==> kernel.interrupted(round)
      ensures outcome == Timeout <==> !kernel.interrupted(round) && ReachedAt(kernel, deadline, round)
      ensures ExpiresBy(kernel, deadline, round) ==> outcome != Ok
    {
      hide Accounted, AreReads, Delivered;
      done := false;
      if kernel.interrupted(round) {
        return Interrupt, false;
      }
      if kernel.now(round).None? {
        return SystemError, false;
      }
      if kernel.now(round).value >= deadline {
        return Timeout, false;
      }
      var events := kernel.poll(round);
      if events.PollInterrupted? {
        return Ok, false;
      }
      if events.PollFailed? {
        return SystemError, false;
      }
      outcome := Serve(STDIN_WRITE, events.input);
      if outcome == Ok {
        outcome := Serve(STDOUT_READ, events.output);
      }
      if outcome == Ok {
        outcome := Serve(STDERR_READ, events.error);
      }
      if outcome != Ok {
        return;
      }
      outcome, done := Observe(round);
    }

    method Observe(round: nat) returns (outcome: Outcome, done: bool)
      requires Polling() && !out.overflowed && !err.overflowed
      modifies this`fd, this`closes, this`closeCalls, this`closeFailed, this`childExited
      ensures Polling() && outcome in {Ok, SystemError}
      ensures done ==> outcome == Ok && childExited && out.Ended() && err.Ended()
    {
      hide Accounted, AreReads, Delivered;
      var waited := kernel.wait(round);
      if waited.WaitFailed? {
        return SystemError, false;
      }
      childExited := childExited || waited.Exited?;
      if childExited && fd[STDIN_WRITE] >= 0 {
        CloseOnce(STDIN_WRITE);
      }
      return Ok, childExited && fd[STDOUT_READ] < 0 && fd[STDERR_READ] < 0;
    }

    /** The poll loop.  It ends by the round in which the clock reaches the deadline. */
    method PollLoop(deadline: nat, limit: nat) returns (outcome: Outcome)
      requires Polling() && !out.overflowed && !err.overflowed && ExpiresBy(kernel, deadline, limit) && rounds == 0
      modifies this`fd, this`closes, this`closeCalls, this`closeFailed, this`offset, this`sent, this`writeCalls,
               this`childExited
      modifies this`rounds
      modifies out`length, out`calls, out`received, out`overflowed, out.buffer
      modifies err`length, err`calls, err`received, err`overflowed, err.buffer
      ensures Valid() && (outcome == Overflow <==> out.overflowed || err.overflowed)
      ensures outcome == Ok ==> childExited && out.Ended() && err.Ended()
      ensures rounds <= limit + 1 && Justified(kernel, deadline, outcome, rounds)
    {
      hide Accounted, AreReads, Delivered, ExpiresBy, Justified, ReachedAt;
      var done := false;
      outcome := Ok;
      JustifiedAtFirst(kernel, deadline, outcome);
      while !done && outcome == Ok
        invariant Polling() && rounds <= limit + 1
        invariant outcome == Overflow <==> out.overflowed || err.overflowed
        invariant rounds == limit + 1 ==> outcome != Ok
        invariant Justified(kernel, deadline, outcome, rounds)
        invariant done ==> outcome == Ok && childExited && out.Ended() && err.Ended()
        decreases limit + 1 - rounds
      {
        outcome, done := Turn(deadline, rounds);
        JustifiedNext(kernel, deadline, outcome, rounds);
        rounds := rounds + 1;
      }
    }

    /** Kill the child's process group, again and again while a signal interrupts the call. */
    method KillGroup() returns (ok: bool)
      requires IsPatient(kernel) && killCalls == 0
      modifies this`killCalls
      ensures 0 < killCalls <= kernel.patience + 1
      ensures forall n :: 0 <= n < killCalls - 1 ==> kernel.kill(n).KillInterrupted?
      ensures var last := kernel.kill(killCalls - 1);
              !last.KillInterrupted? && (ok <==> last.Killed? || last.NoProcess?)
    {
      var answer := KillInterrupted;
      while answer.KillInterrupted?
        invariant killCalls <= kernel.patience + 1 && (killCalls == 0 ==> answer == KillInterrupted)
        invariant killCalls > 0 ==> answer == kernel.kill(killCalls - 1)
        invariant forall n :: 0 <= n < killCalls - 1 ==> kernel.kill(n).KillInterrupted?
        decreases kernel.patience + 1 - killCalls
      {
        answer := kernel.kill(killCalls);
        killCalls := killCalls + 1;
      }
      return answer.Killed? || answer.NoProcess?;
    }

    /** Wait for the child, again and again while a signal interrupts the call: it is reaped once, or the
        wait has failed and it is not. */
    method ReapChild() returns (ok: bool)
      requires IsPatient(kernel) && reapCalls == 0
      modifies this`reapCalls
      ensures 0 < reapCalls <= kernel.patience + 1
      ensures forall n :: 0 <= n < reapCalls - 1 ==> kernel.reap(n).ReapInterrupted?
      ensures !kernel.reap(reapCalls - 1).ReapInterrupted?
      ensures TimesReaped(kernel.reap, reapCalls) == if ok then 1 else 0
    {
      var answer := ReapInterrupted;
      while answer.ReapInterrupted?
        invariant reapCalls <= kernel.patience + 1 && (reapCalls == 0 ==> answer == ReapInterrupted)
        invariant reapCalls > 0 ==> answer == kernel.reap(reapCalls - 1)
        invariant forall n :: 0 <= n < reapCalls - 1 ==> kernel.reap(n).ReapInterrupted?
        invariant TimesReaped(kernel.reap, reapCalls) == if answer.Child? then 1 else 0
        decreases kernel.patience + 1 - reapCalls
      {
        answer := kernel.reap(reapCalls);
        reapCalls := reapCalls + 1;
      }
      return answer.Child?;
    }

    method KillAndReap() returns (ok: bool)
      requires IsPatient(kernel) && killCalls == reapCalls == 0
      modifies this`killCalls, this`reapCalls
      ensures ok ==> TimesReaped(kernel.reap, reapCalls) == 1
    {
      hide IsPatient, TimesReaped;
      ok := KillGroup();
      var reaped := ReapChild();
      ok := ok && reaped;
    }

    /** Close whatever is still open, in the order of the cleanup. */
    method CloseAll()
      requires Valid()
      modifies this`fd, this`closes, this`closeCalls, this`closeFailed
      ensures Valid() && forall i :: 0 <= i < 6 ==> fd[i] < 0
    {
      hide Accounted, AreReads, Delivered;
      for i := 0 to 6
        invariant Valid() && forall j :: 0 <= j < i ==> fd[j] < 0
      {
        CloseOnce(i);
      }
    }

    /** From the spawn to the end of the poll loop. */
    method RunChild(deadline: nat, limit: nat) returns (outcome: Outcome)
      requires Valid() && fd == given && !out.overflowed && !err.overflowed && ExpiresBy(kernel, deadline, limit)
               && rounds == 0
      requires forall i :: 0 <= i < 6 ==> given[i] >= 0
      modifies this`fd, this`closes, this`closeCalls, this`closeFailed, this`offset, this`sent, this`writeCalls,
               this`childExited
      modifies this`rounds
      modifies out`length, out`calls, out`received, out`overflowed, out.buffer
      modifies err`length, err`calls, err`received, err`overflowed, err.buffer
      ensures Valid() && (outcome == Overflow <==> out.overflowed || err.overflowed)
      ensures outcome == Ok ==> childExited && out.Ended() && err.Ended()
      ensures rounds <= limit + 1 && Justified(kernel, deadline, outcome, rounds)
    {
      hide AreReads, ExpiresBy, Accounted, Delivered;
      CloseOnce(STDIN_READ);
      CloseOnce(STDOUT_WRITE);
      CloseOnce(STDERR_WRITE);
      if |payload| == 0 {
        CloseOnce(STDIN_WRITE);
      }
      if !kernel.destroyed {
        return SystemError;
      }
      outcome := PollLoop(deadline, limit);
    }

    /** The whole transaction.  Unless it stops the process, every descriptor it was given has been closed
        exactly once and a spawned child has been reaped exactly once; a completed transaction has
        captured exactly what both outputs carried up to their ends. */
    method Run(deadline: nat, limit: nat) returns (r: Result)
      requires Valid() && fd == given && !out.overflowed && !err.overflowed && !childExited && offset == 0
      requires rounds == killCalls == reapCalls == 0 && ExpiresBy(kernel, deadline, limit) && IsPatient(kernel)
      requires kernel.prepared ==> forall i :: 0 <= i < 6 ==> given[i] >= 0
      modifies this, out`length, out`calls, out`received, out`overflowed, out.buffer
      modifies err`length, err`calls, err`received, err`overflowed, err.buffer
      ensures Valid() && forall i :: 0 <= i < 6 ==> fd[i] < 0
      ensures !r.FailStop? ==> forall i :: 0 <= i < 6 ==> closes[i] == if given[i] >= 0 then 1 else 0
      ensures !r.FailStop? ==> !closeFailed
      ensures !r.FailStop? ==>
                TimesReaped(kernel.reap, reapCalls) == if kernel.prepared && kernel.spawned then 1 else 0
      ensures r.Completed? ==> childExited && out.Ended() && err.Ended()
      ensures r.Completed? ==>
                r.out == Delivered(out.answers, 0, out.calls) && r.err == Delivered(err.answers, 0, err.calls)
      ensures r.Completed? ==> |r.out| <= out.buffer.Length && |r.err| <= err.buffer.Length
      ensures r.Raised? ==> rounds <= limit + 1 && Justified(kernel, deadline, r.outcome, rounds)
      ensures r.Raised? && r.outcome == Overflow ==> out.overflowed || err.overflowed
    {
      hide AreReads, ExpiresBy, Accounted, Delivered, Justified, IsPatient;
      JustifiedAtFirst(kernel, deadline, SystemError);
      var outcome, gone := SystemError, true;
      if kernel.prepared && kernel.spawned {
        outcome := RunChild(deadline, limit);
        gone := KillAndReap();
      }
      CloseAll();
      AllClosed(given, fd, closes);
      if closeFailed || !gone || (kernel.prepared && !kernel.destroyed) || !kernel.restored {
        return FailStop;
      }
      if outcome != Ok {
        return Raised(outcome);
      }
      return Completed(out.buffer[..out.length], err.buffer[..err.length]);
    }
  }

  lemma AllClosed(given: seq<int>, fd: seq<int>, closes: seq<nat>)
    requires Accounted(given, fd, closes) && forall i :: 0 <= i < 6 ==> fd[i] < 0
    ensures forall i :: 0 <= i < 6 ==> closes[i] == if given[i] >= 0 then 1 else 0
  {
  }
}
