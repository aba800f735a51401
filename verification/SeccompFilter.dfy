/** The classic-BPF interpreter and the syscall-selector analysis of the seccomp manifests.

The interpreter runs a filter on one seccomp_data record.  The analysis is a worklist that
computes, for each instruction, where the accumulator's value may have come from, and lists
the constants that the syscall number is compared with.  The build evaluates the filter on
numbers below 1024 only; SmallModel carries that finite sweep to every other number.
*/
module SeccompFilter {
  import opened Bytes

  const LD_W_ABS := 0x20
  const JEQ_K := 0x15
  const JSET_K := 0x45
  const RET_K := 0x06
  const AUDIT_ARCH_X86_64 := 0xC000003E
  const RET_KILL_PROCESS := 0x80000000
  const RET_ERRNO_EPERM := 0x00050001
  const X32_BIT := 0x40000000
  const SWEEP := 1024
  const WORD := 4
  const DATA_SIZE := 64

  datatype Instruction = Instruction(code: nat, jumpTrue: nat, jumpFalse: nat, constant: nat)
  type Program = seq<Instruction>

  /** Where the accumulator's current value came from. */
  datatype Label = Unknown | Number | Architecture | Argument

  datatype Result<+T> = Ok(value: T) | Err(error: Error)
  datatype Error =
    | Malformed
    | JumpExits
    | Unsupported(code: nat)
    | Escaped
    | LoadExceedsData
    | StepBound
    | BadArguments
    | BadNumber
    | SelectorsDiffer
    | NotKilled
    | Permits(number: nat)

  // ---------------------------------------------------------------- the filter and its input

  function DecodeInstruction(s: seq<Byte>): Instruction
    requires |s| == 8
  {
    Instruction(LittleEndian(s[..2]), s[2], s[3], LittleEndian(s[4..]))
  }

  function Instructions(payload: seq<Byte>): (p: Program)
    requires |payload| % 8 == 0
    ensures |p| == |payload| / 8
  {
    if payload == [] then [] else [DecodeInstruction(payload[..8])] + Instructions(payload[8..])
  }

  predicate IsSyscallNumber(n: int) {
    -0x8000_0000 <= n < 0x1_0000_0000
  }

  predicate IsArguments(arguments: seq<int>) {
    |arguments| == 6 && forall i :: 0 <= i < 6 ==> 0 <= arguments[i] <= 0xFFFF_FFFF_FFFF_FFFF
  }

  /** The interpreter's default arguments. */
  function ZeroArguments(): (arguments: seq<nat>)
    ensures |arguments| == 6
  {
    seq(6, i => 0)
  }

  /** The value of a number in the 32-bit nr field. */
  function Encoded(number: int): (n: nat)
    ensures n < 0x1_0000_0000
  {
    number % 0x1_0000_0000
  }

  function PackedArguments(arguments: seq<nat>): (s: seq<Byte>)
    ensures |s| == 8 * |arguments|
  {
    if arguments == [] then []
    else ToLittleEndian(arguments[0], 2 * WORD) + PackedArguments(arguments[1..])
  }

  /** The 60 bytes after the nr field: architecture, instruction pointer, arguments. */
  function DataTail(architecture: int, arguments: seq<nat>): (s: seq<Byte>)
    requires |arguments| == 6
    ensures |s| == DATA_SIZE - WORD
  {
    ToLittleEndian(Encoded(architecture), WORD) + (ToLittleEndian(0, 2 * WORD) + PackedArguments(arguments))
  }

  function SeccompData(number: int, architecture: int, arguments: seq<nat>): (s: seq<Byte>)
    requires |arguments| == 6
    ensures |s| == DATA_SIZE
  {
    ToLittleEndian(Encoded(number), WORD) + DataTail(architecture, arguments)
  }

  function Load(data: seq<Byte>, k: nat): nat
    requires k + 4 <= |data|
  {
    LittleEndian(data[k..k + 4])
  }

  function BitAnd(a: nat, b: nat): nat {
    if a == 0 || b == 0 then 0
    else a % 2 * (b % 2) + 2 * BitAnd(a / 2, b / 2)
  }

  predicate Intersects(a: nat, mask: nat) {
    BitAnd(a, mask) != 0
  }

  // ---------------------------------------------------------------- the interpreter

  predicate IsJump(i: Instruction) {
    i.code == JEQ_K || i.code == JSET_K
  }

  predicate Taken(i: Instruction, acc: nat) {
    if i.code == JEQ_K then acc == i.constant else Intersects(acc, i.constant)
  }

  function LoadLabel(constant: nat): Label {
    if constant == 0 then Number else if constant == 4 then Architecture else Argument
  }

  /** A machine state; `origin` only records which load filled the accumulator. */
  datatype State = State(pc: nat, acc: nat, origin: Label)
  datatype Outcome = Next(state: State) | Done(result: Result<nat>)

  const START := State(0, 0, Unknown)

  function Step(p: Program, data: seq<Byte>, s: State): (o: Outcome)
    ensures o.Next? ==> s.pc < |p| && s.pc < o.state.pc
  {
    if s.pc >= |p| then Done(Err(Escaped))
    else
      var i := p[s.pc];
      if i.code == LD_W_ABS then
        if i.constant + 4 > |data| then Done(Err(LoadExceedsData))
        else Next(State(s.pc + 1, Load(data, i.constant), LoadLabel(i.constant)))
      else if IsJump(i) then
        Next(s.(pc := s.pc + 1 + if Taken(i, s.acc) then i.jumpTrue else i.jumpFalse))
      else if i.code == RET_K then Done(Ok(i.constant))
      else Done(Err(Unsupported(i.code)))
  }

  /** What running the filter from a state ends in.  Jumps only go forward. */
  function Run(p: Program, data: seq<Byte>, s: State): (r: Result<nat>)
    ensures r != Err(StepBound)
    decreases if s.pc < |p| then |p| - s.pc else 0
  {
    match Step(p, data, s)
    case Done(result) => result
    case Next(s') => Run(p, data, s')
  }

  /** The states a run passes through. */
  function Trace(p: Program, data: seq<Byte>, s: State): (t: seq<State>)
    ensures |t| > 0
    decreases if s.pc < |p| then |p| - s.pc else 0
  {
    match Step(p, data, s)
    case Done(_) => [s]
    case Next(s') => [s] + Trace(p, data, s')
  }

  /** The verdict of a filter on one system call. */
  function Verdict(p: Program, number: int, architecture: int, arguments: seq<nat>): Result<nat>
    requires |arguments| == 6
  {
    Run(p, SeccompData(number, architecture, arguments), START)
  }

  /** The interpreter's loop.  Its last error, exceeding the step bound, is never reported. */
  method Interpret(p: Program, data: seq<Byte>) returns (r: Result<nat>)
    ensures r == Run(p, data, START)
    ensures r != Err(StepBound)
  {
    var accumulator, pc := 0, 0;
    ghost var s := START;
    for step := 0 to |p| + 1
      invariant step <= pc && step <= |p|
      invariant s.pc == pc && s.acc == accumulator && Run(p, data, s) == Run(p, data, START)
    {
      if pc >= |p| {
        return Err(Escaped);
      }
      var i := p[pc];
      ghost var o := Step(p, data, s);
      if i.code == LD_W_ABS {
        if i.constant + 4 > |data| {
          return Err(LoadExceedsData);
        }
        accumulator, pc := Load(data, i.constant), pc + 1;
      } else if i.code == JEQ_K {
        pc := pc + 1 + if accumulator == i.constant then i.jumpTrue else i.jumpFalse;
      } else if i.code == JSET_K {
        pc := pc + 1 + if BitAnd(accumulator, i.constant) != 0 then i.jumpTrue else i.jumpFalse;
      } else if i.code == RET_K {
        return Ok(i.constant);
      } else {
        return Err(Unsupported(i.code));
      }
      s := o.state;
    }
    assert false;
    return Err(StepBound);
  }

  method EvaluateClassicBpf(payload: seq<Byte>, architecture: int, number: int, arguments: seq<int>)
    returns (r: Result<nat>)
    ensures !IsArguments(arguments) ==> r == Err(BadArguments)
    ensures IsArguments(arguments) && !IsSyscallNumber(number) ==> r == Err(BadNumber)
    ensures IsArguments(arguments) && IsSyscallNumber(number) && |payload| % 8 != 0 ==> r == Err(Malformed)
    ensures IsArguments(arguments) && IsSyscallNumber(number) && |payload| % 8 == 0 ==>
              r == Verdict(Instructions(payload), number, architecture, arguments)
    ensures r != Err(StepBound)
  {
    if |arguments| != 6 || exists i :: 0 <= i < 6 && !(0 <= arguments[i] <= 0xFFFF_FFFF_FFFF_FFFF) {
      return Err(BadArguments);
    }
    if number < -0x8000_0000 || number >= 0x1_0000_0000 {
      return Err(BadNumber);
    }
    if |payload| % 8 != 0 {
      return Err(Malformed);
    }
    r := Interpret(Instructions(payload), SeccompData(number, architecture, arguments));
  }

  // ---------------------------------------------------------------- the selector analysis

  predicate Supported(i: Instruction) {
    i.code == LD_W_ABS || IsJump(i) || i.code == RET_K
  }

  function Targets(i: Instruction, at: nat): (t: seq<nat>)
    ensures forall j :: 0 <= j < |t| ==> at < t[j]
  {
    if i.code == LD_W_ABS then [at + 1]
    else if IsJump(i) then [at + 1 + i.jumpTrue, at + 1 + i.jumpFalse]
    else []
  }

  function Outgoing(i: Instruction, incoming: set<Label>): set<Label> {
    if incoming == {} then {} else if i.code == LD_W_ABS then {LoadLabel(i.constant)} else incoming
  }

  type Labels = seq<set<Label>>

  /** The labels instruction i gets from the instructions before it. */
  function Gather(p: Program, labels: Labels, i: nat): set<Label>
    requires i <= |labels| <= |p|
  {
    (if i == 0 then {Unknown} else {}) +
    set j, l | 0 <= j < i && i in Targets(p[j], j) && l in Outgoing(p[j], labels[j]) :: l
  }

  /** Reference definition of the analysis: one forward pass, with no worklist.  An instruction
      is reachable when it has a label. */
  function ForwardPass(p: Program, n: nat): (labels: Labels)
    requires n <= |p|
    ensures |labels| == n
  {
    if n == 0 then []
    else
      var labels := ForwardPass(p, n - 1);
      labels + [Gather(p, labels, n - 1)]
  }

  function Origins(p: Program): (labels: Labels)
    ensures |labels| == |p|
  {
    ForwardPass(p, |p|)
  }

  ghost predicate IsForwardPass(p: Program, labels: Labels) {
    && |labels| <= |p|
    && forall i :: 0 <= i < |labels| ==> labels[i] == Gather(p, labels, i)
  }

  lemma GatherPrefix(p: Program, labels: Labels, more: Labels, i: nat)
    requires i <= |labels| && labels <= more && |more| <= |p|
    ensures Gather(p, labels, i) == Gather(p, more, i)
  {
  }

  lemma ExtendGathers(p: Program, labels: Labels)
    requires |labels| < |p| && IsForwardPass(p, labels)
    ensures IsForwardPass(p, labels + [Gather(p, labels, |labels|)])
  {
    var more := labels + [Gather(p, labels, |labels|)];
    forall i | 0 <= i < |more|
      ensures more[i] == Gather(p, more, i)
    {
      GatherPrefix(p, labels, more, i);
    }
  }

  lemma {:induction false} ForwardPassGathers(p: Program, n: nat)
    requires n <= |p|
    ensures IsForwardPass(p, ForwardPass(p, n))
  {
    if n > 0 {
      ForwardPassGathers(p, n - 1);
      ExtendGathers(p, ForwardPass(p, n - 1));
    }
  }

  predicate Sound(p: Program, i: nat)
    requires i < |p|
  {
    Supported(p[i]) && forall t :: t in Targets(p[i], i) ==> t < |p|
  }

  /** Instruction i is at fault for this error. */
  predicate AtFault(p: Program, i: nat, e: Error)
    requires i < |p|
  {
    if e.Unsupported? then p[i].code == e.code && !Supported(p[i])
    else e.JumpExits? && exists t :: t in Targets(p[i], i) && t >= |p|
  }

  /** Every reachable instruction is supported and jumps inside the program. */
  predicate AllSound(p: Program, labels: Labels)
    requires |labels| == |p|
  {
    forall i :: 0 <= i < |p| && labels[i] != {} ==> Sound(p, i)
  }

  predicate Accepted(p: Program) {
    p != [] && AllSound(p, Origins(p))
  }

  /** The constants, in program order, of the instructions with this code that may test the number. */
  function NumberConstants(p: Program, labels: Labels, code: nat, n: nat): seq<nat>
    requires n <= |p| == |labels|
  {
    if n == 0 then []
    else
      NumberConstants(p, labels, code, n - 1) +
      if p[n - 1].code == code && Number in labels[n - 1] then [p[n - 1].constant] else []
  }

  function Selectors(p: Program): seq<nat> {
    NumberConstants(p, Origins(p), JEQ_K, |p|)
  }

  function NumberMasks(p: Program): seq<nat> {
    NumberConstants(p, Origins(p), JSET_K, |p|)
  }

  lemma {:induction false} NumberConstantsComplete(p: Program, labels: Labels, code: nat, n: nat, i: nat)
    requires i < n <= |p| == |labels|
    requires p[i].code == code && Number in labels[i]
    ensures p[i].constant in NumberConstants(p, labels, code, n)
  {
    var before := NumberConstants(p, labels, code, n - 1);
    if i < n - 1 {
      NumberConstantsComplete(p, labels, code, n - 1, i);
      assert before <= NumberConstants(p, labels, code, n);
    } else {
      assert NumberConstants(p, labels, code, n) == before + [p[i].constant];
    }
  }

  // ---------------------------------------------------------------- the worklist

  // Labels found so far, by instruction.
  type LabelMap = map<nat, set<Label>>

  ghost predicate Within(origins: LabelMap, labels: Labels) {
    forall i :: i in origins ==> i < |labels| && origins[i] != {} && origins[i] <= labels[i]
  }

  predicate Settled(p: Program, origins: LabelMap, i: nat)
    requires i in origins && i < |p|
  {
    && Sound(p, i)
    && forall t :: t in Targets(p[i], i) ==> t in origins && Outgoing(p[i], origins[i]) <= origins[t]
  }

  /** A label map in which every instruction has settled contains the reference labels. */
  lemma {:induction false} SettledContainsReference(p: Program, labels: Labels, origins: LabelMap, i: nat)
    requires |labels| == |p| && IsForwardPass(p, labels) && Within(origins, labels)
    requires 0 in origins && Unknown in origins[0]
    requires forall j :: j in origins ==> Settled(p, origins, j)
    requires i < |p|
    ensures labels[i] != {} ==> i in origins && origins[i] == labels[i]
    decreases i
  {
    forall l | l in labels[i]
      ensures i in origins && l in origins[i]
    {
      if !(i == 0 && l == Unknown) {
        var j :| 0 <= j < i && i in Targets(p[j], j) && l in Outgoing(p[j], labels[j]);
        SettledContainsReference(p, labels, origins, j);
      }
    }
  }

  ghost function AllPairs(n: nat): set<(nat, Label)> {
    set i: nat, l: Label | 0 <= i < n :: (i, l)
  }

  /** The (instruction, label) pairs not found yet: what the worklist's termination rests on. */
  ghost function Unset(origins: LabelMap, n: nat): set<(nat, Label)> {
    set x | x in AllPairs(n) && !(x.0 in origins && x.1 in origins[x.0])
  }

  lemma UnsetShrinks(origins: LabelMap, n: nat, target: nat, more: set<Label>)
    requires target < n
    requires target in origins ==> origins[target] < more
    requires target !in origins ==> more != {}
    ensures Unset(origins[target := more], n) < Unset(origins, n)
  {
    var l :| l in more && !(target in origins && l in origins[target]);
    assert (target, l) in AllPairs(n) && (target, l) in Unset(origins, n);
    assert (target, l) !in Unset(origins[target := more], n);
  }

  /** All instructions with labels, except one, are pending or settled. */
  predicate Stable(p: Program, origins: LabelMap, pending: seq<nat>, except: int) {
    && (forall i :: i in pending ==> i in origins)
    && forall i :: i in origins && i != except ==> i < |p| && (i in pending || Settled(p, origins, i))
  }

  lemma UpdateKeepsStable(p: Program, origins: LabelMap, pending: seq<nat>, except: int, target: nat, more: set<Label>)
    requires target < |p| && Stable(p, origins, pending, except)
    requires target in origins ==> origins[target] <= more
    ensures Stable(p, origins[target := more], pending + [target], except)
  {
  }

  /** The inner loop's body: send the outgoing labels to one target. */
  method Propagate(ghost p: Program, origins: LabelMap, pending: seq<nat>, ghost index: nat, target: nat,
                   outgoing: set<Label>, ghost labels: Labels)
    returns (origins': LabelMap, pending': seq<nat>)
    requires target < |p| == |labels| && Stable(p, origins, pending, index) && Within(origins, labels)
    requires outgoing != {} && outgoing <= labels[target]
    ensures Stable(p, origins', pending', index) && Within(origins', labels)
    ensures forall i :: i in origins ==> i in origins' && origins[i] <= origins'[i]
    ensures index in origins && index != target ==> origins'[index] == origins[index]
    ensures target in origins' && outgoing <= origins'[target]
    ensures (origins' == origins && pending' == pending) || Unset(origins', |p|) < Unset(origins, |p|)
  {
    var previous := if target in origins then origins[target] else {};
    var update := outgoing - previous;
    assert forall l :: l in outgoing ==> l in previous || l in update;
    origins', pending' := origins, pending;
    if update != {} {
      UnsetShrinks(origins, |p|, target, previous + update);
      UpdateKeepsStable(p, origins, pending, index, target, previous + update);
      origins' := origins[target := previous + update];
      pending' := pending + [target];
    }
  }

  lemma LabelsFlow(p: Program, labels: Labels, i: nat, t: nat, outgoing: set<Label>)
    requires |labels| == |p| && IsForwardPass(p, labels)
    requires i < |p| && t in Targets(p[i], i) && t < |p|
    requires outgoing <= Outgoing(p[i], labels[i])
    ensures outgoing <= labels[t]
  {
  }

  lemma SettleClosesStable(p: Program, origins: LabelMap, pending: seq<nat>, index: nat)
    requires index < |p| && index in origins
    requires Stable(p, origins, pending, index) && Settled(p, origins, index)
    ensures Stable(p, origins, pending, -1)
  {
  }

  predicate Rooted(origins: LabelMap) {
    0 in origins && Unknown in origins[0]
  }

  /** Process one popped instruction: report its failure or settle it. */
  method Visit(p: Program, origins: LabelMap, pending: seq<nat>, index: nat, ghost labels: Labels)
    returns (error: Option<Error>, origins': LabelMap, pending': seq<nat>)
    requires |labels| == |p| && IsForwardPass(p, labels) && Within(origins, labels)
    requires index in origins && Stable(p, origins, pending, index) && Rooted(origins)
    ensures error.Some? ==> AtFault(p, index, error.value)
    ensures error.None? ==> Stable(p, origins', pending', -1) && Within(origins', labels) && Rooted(origins')
    ensures (origins' == origins && pending' == pending) || Unset(origins', |p|) < Unset(origins, |p|)
  {
    error, origins', pending' := None, origins, pending;
    var i := p[index];
    var outgoing: set<Label>;
    if i.code == RET_K {
      SettleClosesStable(p, origins, pending, index);
      return;
    } else if i.code == LD_W_ABS {
      outgoing := {LoadLabel(i.constant)};
    } else if i.code == JEQ_K || i.code == JSET_K {
      outgoing := origins[index];
    } else {
      error := Some(Unsupported(i.code));
      return;
    }
    assert outgoing == Outgoing(i, origins[index]) && outgoing <= Outgoing(i, labels[index]);
    var targets: seq<nat> := Targets(i, index);
    for n := 0 to |targets|
      invariant Within(origins', labels) && Stable(p, origins', pending', index) && Rooted(origins')
      invariant index in origins' && origins'[index] == origins[index]
      invariant forall m :: 0 <= m < n ==>
                  targets[m] < |p| && targets[m] in origins' && outgoing <= origins'[targets[m]]
      invariant (origins' == origins && pending' == pending) || Unset(origins', |p|) < Unset(origins, |p|)
    {
      assert targets[n] in Targets(p[index], index);
      if targets[n] >= |p| {
        error := Some(JumpExits);
        return;
      }
      LabelsFlow(p, labels, index, targets[n], outgoing);
      origins', pending' := Propagate(p, origins', pending', index, targets[n], outgoing, labels);
    }
    SettleClosesStable(p, origins', pending', index);
  }

  /** The worklist: it ends, and on success has found exactly the reference labels. */
  method FindOrigins(p: Program) returns (r: Result<LabelMap>)
    requires p != []
    ensures r.Ok? <==> Accepted(p)
    ensures r.Ok? ==> forall i :: 0 <= i < |p| ==>
                (if i in r.value then r.value[i] else {}) == Origins(p)[i]
    ensures r.Err? ==> exists i :: 0 <= i < |p| && Origins(p)[i] != {} && AtFault(p, i, r.error)
  {
    ghost var labels := Origins(p);
    ForwardPassGathers(p, |p|);
    var origins: LabelMap := map[0 := {Unknown}];
    var pending := [0];
    while pending != []
      invariant Within(origins, labels) && Rooted(origins)
      invariant Stable(p, origins, pending, -1)
      decreases Unset(origins, |p|), |pending|
    {
      var index := pending[|pending| - 1];
      pending := pending[..|pending| - 1];
      assert Stable(p, origins, pending, index);
      var error: Option<Error>;
      error, origins, pending := Visit(p, origins, pending, index, labels);
      if error.Some? {
        return Err(error.value);
      }
    }
    forall i: nat | i < |p| {
      SettledContainsReference(p, labels, origins, i);
    }
    return Ok(origins);
  }

  method SyscallSelectors(payload: seq<Byte>) returns (r: Result<seq<nat>>)
    ensures r.Ok? <==> |payload| % 8 == 0 && Accepted(Instructions(payload))
    ensures r.Ok? ==> r.value == Selectors(Instructions(payload))
    ensures payload == [] || |payload| % 8 != 0 <==> r == Err(Malformed)
    ensures r.Err? && r.error != Malformed ==>
              var p := Instructions(payload);
              exists i :: 0 <= i < |p| && Origins(p)[i] != {} && AtFault(p, i, r.error)
  {
    if payload == [] || |payload| % 8 != 0 {
      return Err(Malformed);
    }
    var p := Instructions(payload);
    var found := FindOrigins(p);
    if found.Err? {
      return Err(found.error);
    }
    var origins := found.value;
    var selectors := [];
    for n := 0 to |p|
      invariant selectors == NumberConstants(p, Origins(p), JEQ_K, n)
    {
      if p[n].code == JEQ_K && n in origins && Number in origins[n] {
        selectors := selectors + [p[n].constant];
      }
    }
    return Ok(selectors);
  }

  // ---------------------------------------------------------------- soundness of the labels

  /** The nr and arch fields of a seccomp_data record. */
  predicate Fields(data: seq<Byte>, number: nat, architecture: nat) {
    |data| == DATA_SIZE && Load(data, 0) == number && Load(data, WORD) == architecture
  }

  /** Two records that differ at most in the nr field. */
  ghost predicate SameTail(d1: seq<Byte>, d2: seq<Byte>) {
    && |d1| == |d2| == DATA_SIZE
    && forall k :: WORD <= k && k + WORD <= DATA_SIZE ==> Load(d1, k) == Load(d2, k)
  }

  lemma DataFields(number: int, architecture: int, arguments: seq<nat>)
    requires |arguments| == 6
    ensures Fields(SeccompData(number, architecture, arguments), Encoded(number), Encoded(architecture))
  {
    var data := SeccompData(number, architecture, arguments);
    assert Power256(WORD) == 0x1_0000_0000;
    LittleEndianRoundTrip(Encoded(number), WORD);
    LittleEndianRoundTrip(Encoded(architecture), WORD);
    assert data[0..4] == ToLittleEndian(Encoded(number), WORD);
    assert data[4..8] == ToLittleEndian(Encoded(architecture), WORD);
  }

  lemma DataTails(n1: int, n2: int, architecture: int, arguments: seq<nat>)
    requires |arguments| == 6
    ensures SameTail(SeccompData(n1, architecture, arguments), SeccompData(n2, architecture, arguments))
  {
    var d1, d2 := SeccompData(n1, architecture, arguments), SeccompData(n2, architecture, arguments);
    forall k | WORD <= k && k + WORD <= DATA_SIZE
      ensures Load(d1, k) == Load(d2, k)
    {
      assert d1[k..k + 4] == d2[k..k + 4];
    }
  }

  /** A load at k gives the same value whatever the number is. */
  ghost predicate IgnoresNumber(k: nat)
    requires k + WORD <= DATA_SIZE
  {
    forall n1: int, n2: int, a: int, args: seq<nat> | |args| == 6 ::
      Load(SeccompData(n1, a, args), k) == Load(SeccompData(n2, a, args), k)
  }

  lemma OverlapSeesNumber(k: nat)
    requires k < WORD
    ensures !IgnoresNumber(k)
  {
    // The top byte of the nr field lies in the loaded word.
    var args := ZeroArguments();
    var d1, d2 := SeccompData(0, 0, args), SeccompData(0x0100_0000, 0, args);
    DataFields(0, 0, args);
    DataFields(0x0100_0000, 0, args);
    assert d1[3] != d2[3] by {
      assert d1[4..] == d2[4..];
      assert d1[0..4][3] == ToLittleEndian(0, 4)[3] && d2[0..4][3] == ToLittleEndian(0x0100_0000, 4)[3];
    }
    assert d1[k..k + 4][3 - k] == d1[3] && d2[k..k + 4][3 - k] == d2[3];
    if Load(d1, k) == Load(d2, k) {
      LittleEndianInjective(d1[k..k + 4], d2[k..k + 4]);
    }
  }

  /** The label of a load tells truly whether the value depends on the number, except at offsets
      1 to 3: there the analysis says Argument, and the load overlaps the nr field. */
  lemma LabelExact(k: nat)
    requires k + WORD <= DATA_SIZE
    ensures IgnoresNumber(k) <==> WORD <= k
    ensures (IgnoresNumber(k) <==> LoadLabel(k) != Number) <==> !(1 <= k <= 3)
  {
    if k < WORD {
      OverlapSeesNumber(k);
    }
    forall n1: int, n2: int, a: int, args: seq<nat> | |args| == 6 && WORD <= k
      ensures Load(SeccompData(n1, a, args), k) == Load(SeccompData(n2, a, args), k)
    {
      DataTails(n1, n2, a, args);
    }
  }

  /** What a label promises about the accumulator. */
  predicate Holds(s: State, number: nat, architecture: nat) {
    match s.origin
    case Unknown => s.acc == 0
    case Number => s.acc == number
    case Architecture => s.acc == architecture
    case Argument => true
  }

  predicate Labelled(labels: Labels, s: State) {
    s.pc < |labels| ==> s.origin in labels[s.pc]
  }

  lemma StepKeepsLabel(p: Program, labels: Labels, data: seq<Byte>, s: State)
    requires |labels| == |p| && IsForwardPass(p, labels) && Labelled(labels, s)
    requires Step(p, data, s).Next?
    ensures Labelled(labels, Step(p, data, s).state)
    ensures AllSound(p, labels) ==> Step(p, data, s).state.pc < |p|
  {
    hide IsForwardPass, Gather, Load, Intersects;
    var s' := Step(p, data, s).state;
    assert s'.pc in Targets(p[s.pc], s.pc);
    assert s.origin in labels[s.pc] && s'.origin in Outgoing(p[s.pc], labels[s.pc]);
    if s'.pc < |p| {
      LabelsFlow(p, labels, s.pc, s'.pc, {s'.origin});
    }
  }

  lemma StepKeepsHolds(p: Program, data: seq<Byte>, number: nat, architecture: nat, s: State)
    requires Fields(data, number, architecture) && Holds(s, number, architecture)
    requires Step(p, data, s).Next?
    ensures Holds(Step(p, data, s).state, number, architecture)
  {
  }

  lemma {:induction false} TraceLabelled(p: Program, labels: Labels, data: seq<Byte>, number: nat, architecture: nat,
                                         s: State)
    requires |labels| == |p| && IsForwardPass(p, labels) && Fields(data, number, architecture)
    requires Labelled(labels, s) && Holds(s, number, architecture)
    ensures forall v :: v in Trace(p, data, s) ==> Labelled(labels, v) && Holds(v, number, architecture)
    decreases if s.pc < |p| then |p| - s.pc else 0
  {
    match Step(p, data, s)
    case Done(_) =>
    case Next(s') =>
      StepKeepsLabel(p, labels, data, s);
      StepKeepsHolds(p, data, number, architecture, s);
      assert Trace(p, data, s) == [s] + Trace(p, data, s');
      TraceLabelled(p, labels, data, number, architecture, s');
  }

  /** Soundness: at every instruction a run visits, the true origin of the accumulator is among the
      computed labels and the label tells what the accumulator holds. */
  lemma LabelsSound(p: Program, number: int, architecture: int, arguments: seq<nat>)
    requires |arguments| == 6 && p != []
    ensures forall v :: v in Trace(p, SeccompData(number, architecture, arguments), START) ==>
              Labelled(Origins(p), v) && Holds(v, Encoded(number), Encoded(architecture))
  {
    StartLabelled(p);
    DataFields(number, architecture, arguments);
    TraceLabelled(p, Origins(p), SeccompData(number, architecture, arguments), Encoded(number), Encoded(architecture),
                  START);
  }

  lemma StartLabelled(p: Program)
    requires p != []
    ensures IsForwardPass(p, Origins(p)) && Labelled(Origins(p), START)
  {
    ForwardPassGathers(p, |p|);
    assert Origins(p)[0] == Gather(p, Origins(p), 0);
  }

  lemma {:induction false} SoundNeverEscapes(p: Program, labels: Labels, data: seq<Byte>, s: State)
    requires |labels| == |p| && IsForwardPass(p, labels) && AllSound(p, labels)
    requires s.pc < |p| && Labelled(labels, s)
    ensures Run(p, data, s).Ok? || Run(p, data, s) == Err(LoadExceedsData)
    decreases |p| - s.pc
  {
    match Step(p, data, s)
    case Done(_) =>
    case Next(s') =>
      StepKeepsLabel(p, labels, data, s);
      SoundNeverEscapes(p, labels, data, s');
  }

  /** An accepted filter neither escapes nor meets an unsupported instruction: the one failure left
      is a load past the record. */
  lemma AcceptedNeverEscapes(p: Program, data: seq<Byte>)
    requires Accepted(p)
    ensures Run(p, data, START).Ok? || Run(p, data, START) == Err(LoadExceedsData)
  {
    StartLabelled(p);
    SoundNeverEscapes(p, Origins(p), data, START);
  }

  // ---------------------------------------------------------------- the small-model theorem

  /** No load overlaps the nr field without being a load of it. */
  predicate NoStraddlingLoad(p: Program) {
    forall i :: 0 <= i < |p| && p[i].code == LD_W_ABS ==> !(1 <= p[i].constant <= 3)
  }

  predicate AgreeOnMasks(masks: seq<nat>, n1: nat, n2: nat) {
    forall m :: m in masks ==> Intersects(n1, m) == Intersects(n2, m)
  }

  /** n1 and n2 pass every test of the number the same way. */
  predicate Indistinguishable(p: Program, labels: Labels, n1: nat, n2: nat)
    requires |labels| == |p|
  {
    forall i :: 0 <= i < |p| && IsJump(p[i]) && Number in labels[i] ==> Taken(p[i], n1) == Taken(p[i], n2)
  }

  /** The two machines are at the same place and differ at most in the number they hold. */
  predicate InLockstep(s1: State, s2: State, n1: nat, n2: nat) {
    && s1.pc == s2.pc && s1.origin == s2.origin
    && if s1.origin == Number then s1.acc == n1 && s2.acc == n2 else s1.acc == s2.acc
  }

  lemma LockstepStep(p: Program, labels: Labels, d1: seq<Byte>, d2: seq<Byte>, n1: nat, n2: nat, s1: State, s2: State)
    requires |labels| == |p| && Labelled(labels, s1) && NoStraddlingLoad(p)
    requires SameTail(d1, d2) && Load(d1, 0) == n1 && Load(d2, 0) == n2
    requires Indistinguishable(p, labels, n1, n2) && InLockstep(s1, s2, n1, n2)
    ensures match (Step(p, d1, s1), Step(p, d2, s2))
            case (Next(t1), Next(t2)) => InLockstep(t1, t2, n1, n2)
            case (Done(r1), Done(r2)) => r1 == r2
            case _ => false
  {
  }

  lemma {:induction false} Lockstep(p: Program, labels: Labels, d1: seq<Byte>, d2: seq<Byte>, n1: nat, n2: nat,
                                    s1: State, s2: State)
    requires |labels| == |p| && IsForwardPass(p, labels) && Labelled(labels, s1) && NoStraddlingLoad(p)
    requires SameTail(d1, d2) && Load(d1, 0) == n1 && Load(d2, 0) == n2
    requires Indistinguishable(p, labels, n1, n2) && InLockstep(s1, s2, n1, n2)
    ensures Run(p, d1, s1) == Run(p, d2, s2)
    decreases if s1.pc < |p| then |p| - s1.pc else 0
  {
    LockstepStep(p, labels, d1, d2, n1, n2, s1, s2);
    if Step(p, d1, s1).Next? {
      StepKeepsLabel(p, labels, d1, s1);
      Lockstep(p, labels, d1, d2, n1, n2, Step(p, d1, s1).state, Step(p, d2, s2).state);
    }
  }

  lemma UndeclaredIndistinguishable(p: Program, n1: nat, n2: nat)
    requires n1 !in Selectors(p) && n2 !in Selectors(p) && AgreeOnMasks(NumberMasks(p), n1, n2)
    ensures Indistinguishable(p, Origins(p), n1, n2)
  {
    forall i | 0 <= i < |p| && IsJump(p[i]) && Number in Origins(p)[i]
      ensures Taken(p[i], n1) == Taken(p[i], n2)
    {
      NumberConstantsComplete(p, Origins(p), p[i].code, |p|, i);
    }
  }

  /** Two undeclared numbers that agree on every mask the number may be tested with get the same
      verdict, for every architecture and all arguments. */
  lemma SmallModel(p: Program, n1: int, n2: int, architecture: int, arguments: seq<nat>)
    requires |arguments| == 6 && NoStraddlingLoad(p)
    requires Encoded(n1) !in Selectors(p) && Encoded(n2) !in Selectors(p)
    requires AgreeOnMasks(NumberMasks(p), Encoded(n1), Encoded(n2))
    ensures Verdict(p, n1, architecture, arguments) == Verdict(p, n2, architecture, arguments)
  {
    if p == [] {
      return;
    }
    StartLabelled(p);
    UndeclaredIndistinguishable(p, Encoded(n1), Encoded(n2));
    DataFields(n1, architecture, arguments);
    DataFields(n2, architecture, arguments);
    DataTails(n1, n2, architecture, arguments);
    Lockstep(p, Origins(p), SeccompData(n1, architecture, arguments), SeccompData(n2, architecture, arguments),
             Encoded(n1), Encoded(n2), START, START);
  }

  /** A filter with one load and no test of the number. */
  function OneLoad(k: nat): Program {
    [Instruction(LD_W_ABS, 0, 0, k), Instruction(JEQ_K, 0, 1, 0), Instruction(RET_K, 0, 0, 1),
     Instruction(RET_K, 0, 0, 2)]
  }

  lemma OneLoadLabel(k: nat)
    requires LoadLabel(k) == Argument
    ensures Number !in Origins(OneLoad(k))[1]
  {
    hide ForwardPass;
    var p := OneLoad(k);
    var labels := Origins(p);
    ForwardPassGathers(p, |p|);
    assert labels[0] == Gather(p, labels, 0) == {Unknown};
    assert labels[1] == Gather(p, labels, 1);
    assert Outgoing(p[0], labels[0]) == {Argument};
  }

  lemma OneLoadConstants(k: nat, labels: Labels, code: nat)
    requires |labels| == 4 && Number !in labels[1] && (code == JEQ_K || code == JSET_K)
    ensures NumberConstants(OneLoad(k), labels, code, 4) == []
  {
    var p := OneLoad(k);
    assert NumberConstants(p, labels, code, 0) == NumberConstants(p, labels, code, 1) == [];
    assert NumberConstants(p, labels, code, 2) == NumberConstants(p, labels, code, 3) == [];
  }

  lemma OneLoadSelectsNothing(k: nat)
    requires LoadLabel(k) == Argument
    ensures Accepted(OneLoad(k)) && Selectors(OneLoad(k)) == [] && NumberMasks(OneLoad(k)) == []
  {
    hide ForwardPass, NumberConstants;
    OneLoadLabel(k);
    OneLoadConstants(k, Origins(OneLoad(k)), JEQ_K);
    OneLoadConstants(k, Origins(OneLoad(k)), JSET_K);
  }

  lemma OneLoadRun(k: nat, data: seq<Byte>)
    requires |data| == DATA_SIZE && k + WORD <= DATA_SIZE
    ensures Run(OneLoad(k), data, START) == Ok(if Load(data, k) == 0 then 1 else 2)
  {
    var p, acc := OneLoad(k), Load(data, k);
    var loaded := State(1, acc, LoadLabel(k));
    var end := loaded.(pc := if acc == 0 then 2 else 3);
    assert Step(p, data, START) == Next(loaded);
    assert Step(p, data, loaded) == Next(end);
    assert Run(p, data, end) == Ok(if acc == 0 then 1 else 2);
  }

  /** The theorem fails at offsets 1 to 3: no selector and no mask, yet two numbers that differ only in
      their top byte get different verdicts. */
  lemma StraddlingLoadBreaks(k: nat)
    requires 1 <= k <= 3
    ensures Accepted(OneLoad(k)) && Selectors(OneLoad(k)) == [] && NumberMasks(OneLoad(k)) == []
    ensures Verdict(OneLoad(k), 0, 0, ZeroArguments()) == Ok(1)
    ensures Verdict(OneLoad(k), 0x0100_0000, 0, ZeroArguments()) == Ok(2)
  {
    hide Run, Origins, NumberConstants;
    OneLoadSelectsNothing(k);
    var d1, d2 := SeccompData(0, 0, ZeroArguments()), SeccompData(0x0100_0000, 0, ZeroArguments());
    OneLoadRun(k, d1);
    OneLoadRun(k, d2);
    NumberBytes();
    assert d1[k..k + 4] == [0, 0, 0, 0];
    assert d2[k..k + 4][3 - k] == 1;
    if Load(d2, k) == 0 {
      LittleEndianInjective(d2[k..k + 4], [0, 0, 0, 0]);
    }
  }

  lemma NumberBytes()
    ensures var d := SeccompData(0, 0, ZeroArguments()); forall i :: 0 <= i < 8 ==> d[i] == 0
    ensures SeccompData(0x0100_0000, 0, ZeroArguments())[3] == 1
  {
  }

  predicate LoadsAmong(p: Program, offsets: set<nat>) {
    forall i :: 0 <= i < |p| && p[i].code == LD_W_ABS ==> p[i].constant in offsets
  }

  ghost predicate SmallModelHolds(p: Program) {
    forall n1: int, n2: int, architecture: int, arguments: seq<nat> ::
      && |arguments| == 6 && Encoded(n1) !in Selectors(p) && Encoded(n2) !in Selectors(p)
      && AgreeOnMasks(NumberMasks(p), Encoded(n1), Encoded(n2))
      ==> Verdict(p, n1, architecture, arguments) == Verdict(p, n2, architecture, arguments)
  }

  /** Exactly the load offsets outside 1 to 3 are safe: the theorem holds of every filter that loads
      from the given offsets if and only if none of them is 1, 2 or 3. */
  lemma SafeOffsetsExact(offsets: set<nat>)
    ensures (forall p: Program :: LoadsAmong(p, offsets) ==> SmallModelHolds(p))
            <==> (forall k :: k in offsets ==> !(1 <= k <= 3))
  {
    hide Verdict, Selectors, NumberMasks;
    if forall k :: k in offsets ==> !(1 <= k <= 3) {
      forall p: Program | LoadsAmong(p, offsets)
        ensures SmallModelHolds(p)
      {
        forall n1: int, n2: int, architecture: int, arguments: seq<nat> |
          && |arguments| == 6 && Encoded(n1) !in Selectors(p) && Encoded(n2) !in Selectors(p)
          && AgreeOnMasks(NumberMasks(p), Encoded(n1), Encoded(n2))
          ensures Verdict(p, n1, architecture, arguments) == Verdict(p, n2, architecture, arguments)
        {
          SmallModel(p, n1, n2, architecture, arguments);
        }
      }
    } else {
      var k :| k in offsets && 1 <= k <= 3;
      StraddlingLoadBreaks(k);
      assert LoadsAmong(OneLoad(k), offsets);
      assert AgreeOnMasks(NumberMasks(OneLoad(k)), Encoded(0), Encoded(0x0100_0000));
      assert !SmallModelHolds(OneLoad(k));
    }
  }

  // ---------------------------------------------------------------- the build's sweep

  function Power2(k: nat): nat {
    if k == 0 then 1 else 2 * Power2(k - 1)
  }

  lemma {:induction false} LowBitsMiss(a: nat, k: nat, q: nat)
    requires a < Power2(k)
    ensures !Intersects(a, Power2(k) * q)
  {
    if k > 0 && a != 0 && Power2(k) * q != 0 {
      var mask := Power2(k) * q;
      assert mask == 2 * (Power2(k - 1) * q);
      LowBitsMiss(a / 2, k - 1, q);
    }
  }

  /** The number with the x32 bit set. */
  function InX32(n: nat): nat {
    if n / X32_BIT % 2 == 1 then n else X32_BIT + n
  }

  /** What _phase_document requires before it issues a phase: the selectors are the policy's numbers
      in order, the two namespace probes are killed, and no undeclared number below 1024 gets more
      than EPERM. */
  predicate Evidence(p: Program, declared: seq<nat>, read: nat) {
    && Accepted(p)
    && Selectors(p) == declared
    && IsSyscallNumber(InX32(read))
    && Verdict(p, read, 0, ZeroArguments()) == Ok(RET_KILL_PROCESS)
    && Verdict(p, InX32(read), AUDIT_ARCH_X86_64, ZeroArguments()) == Ok(RET_KILL_PROCESS)
    && Swept(p, declared, SWEEP)
  }

  predicate Swept(p: Program, declared: seq<nat>, n: nat) {
    forall m :: 0 <= m < n && m !in declared ==>
      Verdict(p, m, AUDIT_ARCH_X86_64, ZeroArguments()) == Ok(RET_ERRNO_EPERM)
  }

  /** The build's loop over range(1024). */
  method SweepNumbers(payload: seq<Byte>, declared: seq<nat>) returns (permitted: Option<nat>)
    requires |payload| % 8 == 0
    ensures permitted.None? <==> Swept(Instructions(payload), declared, SWEEP)
  {
    var n := 0;
    while n < SWEEP
      invariant n <= SWEEP && Swept(Instructions(payload), declared, n)
    {
      if n !in declared {
        var verdict := EvaluateClassicBpf(payload, AUDIT_ARCH_X86_64, n, ZeroArguments());
        if verdict != Ok(RET_ERRNO_EPERM) {
          return Some(n);
        }
      }
      n := n + 1;
    }
    return None;
  }

  method PhaseDocument(payload: seq<Byte>, declared: seq<nat>, read: nat) returns (r: Result<nat>)
    ensures r.Ok? <==> |payload| % 8 == 0 && Evidence(Instructions(payload), declared, read)
    ensures r.Ok? ==> r.value == |Instructions(payload)|
  {
    var actual := SyscallSelectors(payload);
    if actual.Err? {
      return Err(actual.error);
    }
    if actual.value != declared {
      return Err(SelectorsDiffer);
    }
    var foreign := EvaluateClassicBpf(payload, 0, read, ZeroArguments());
    var x32 := EvaluateClassicBpf(payload, AUDIT_ARCH_X86_64, InX32(read), ZeroArguments());
    if foreign != Ok(RET_KILL_PROCESS) || x32 != Ok(RET_KILL_PROCESS) {
      return Err(NotKilled);
    }
    var permitted := SweepNumbers(payload, declared);
    return if permitted.Some? then Err(Permits(permitted.value)) else Ok(|payload| / 8);
  }

  /** Undeclared numbers with the same masks as a probed number share its verdict. */
  lemma ProbeExtends(p: Program, probe: int, n: int, action: nat)
    requires NoStraddlingLoad(p)
    requires Encoded(probe) !in Selectors(p) && Encoded(n) !in Selectors(p)
    requires AgreeOnMasks(NumberMasks(p), Encoded(probe), Encoded(n))
    requires Verdict(p, probe, AUDIT_ARCH_X86_64, ZeroArguments()) == Ok(action)
    ensures Verdict(p, n, AUDIT_ARCH_X86_64, ZeroArguments()) == Ok(action)
  {
    SmallModel(p, probe, n, AUDIT_ARCH_X86_64, ZeroArguments());
  }

  lemma SweptMissMasks(masks: seq<nat>, swept: nat)
    requires swept < SWEEP && forall m :: m in masks ==> m % SWEEP == 0
    ensures forall m :: m in masks ==> !Intersects(swept, m)
  {
    assert Power2(10) == SWEEP;
    forall m | m in masks
      ensures !Intersects(swept, m)
    {
      LowBitsMiss(swept, 10, m / SWEEP);
    }
  }

  /** The sweep of 1024 numbers decides every undeclared number that meets no mask. */
  lemma SweepExtends(p: Program, declared: seq<nat>, read: nat, swept: nat, n: int)
    requires Evidence(p, declared, read) && NoStraddlingLoad(p)
    requires forall m :: m in NumberMasks(p) ==> m % SWEEP == 0
    requires swept < SWEEP && swept !in declared
    requires Encoded(n) !in declared && forall m :: m in NumberMasks(p) ==> !Intersects(Encoded(n), m)
    ensures Verdict(p, n, AUDIT_ARCH_X86_64, ZeroArguments()) == Ok(RET_ERRNO_EPERM)
  {
    hide Verdict, NumberMasks, Intersects, NoStraddlingLoad, Selectors, Accepted;
    SweptMissMasks(NumberMasks(p), swept);
    assert Encoded(swept) == swept && AgreeOnMasks(NumberMasks(p), swept, Encoded(n));
    ProbeExtends(p, swept, n, RET_ERRNO_EPERM);
  }

  /** The x32 probe decides every undeclared number that meets the same masks as the probe. */
  lemma X32ProbeExtends(p: Program, declared: seq<nat>, read: nat, n: int)
    requires Evidence(p, declared, read) && NoStraddlingLoad(p)
    requires InX32(read) !in declared && Encoded(n) !in declared
    requires AgreeOnMasks(NumberMasks(p), InX32(read), Encoded(n))
    ensures Verdict(p, n, AUDIT_ARCH_X86_64, ZeroArguments()) == Ok(RET_KILL_PROCESS)
  {
    hide Verdict, NumberMasks, Selectors, NoStraddlingLoad, AgreeOnMasks, Accepted;
    assert Encoded(InX32(read)) == InX32(read);
    ProbeExtends(p, InX32(read), n, RET_KILL_PROCESS);
  }
}
