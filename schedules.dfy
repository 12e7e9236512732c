/** The schedule that a calibration entry holds, reduced to what the entries
    use: a name, a mutable metadata map, timed instructions whose operands are
    either fixed values or named parameters, in-place insertion, and
    assignment of parameter values into a copy. */
module Schedules {

  /** A parameter value; opaque to the entries. */
  datatype Value = Value(token: nat)

  /** A named parameter object. Two parameters may share a name and still be
      different objects, which `uuid` tells apart. */
  datatype Parameter = Parameter(name: string, uuid: nat)

  /** An operand still waiting for a value is a `Symbol`. */
  datatype Operand = Fixed(value: Value) | Symbol(parameter: Parameter)

  datatype Instruction = Instruction(opcode: nat, operands: seq<Operand>)

  /** An instruction placed at start time `t0`. */
  datatype Timed = Timed(t0: nat, instruction: Instruction)

  /** Who defined a schedule (`CalibrationPublisher`). */
  datatype Publisher = BackendProvider | Qiskit | ExperimentService

  datatype MetaValue = PublisherTag(publisher: Publisher) | Opaque(token: nat)

  const PublisherKey: string := "publisher"

  /** The observable contents of a schedule object. */
  datatype ScheduleValue = ScheduleValue(name: string, metadata: map<string, MetaValue>, children: seq<Timed>)

  /** Records `publisher` unless a publisher is already recorded; nothing else changes. */
  function TagIfAbsent(metadata: map<string, MetaValue>, publisher: Publisher): (r: map<string, MetaValue>)
    ensures r.Keys == metadata.Keys + {PublisherKey}
    ensures forall k :: k in metadata ==> r[k] == metadata[k]
    ensures PublisherKey !in metadata ==> r[PublisherKey] == PublisherTag(publisher)
  {
    if PublisherKey in metadata then metadata else metadata[PublisherKey := PublisherTag(publisher)]
  }

  /** Records `publisher`, replacing any publisher already recorded. */
  function Tag(metadata: map<string, MetaValue>, publisher: Publisher): (r: map<string, MetaValue>)
    ensures r.Keys == metadata.Keys + {PublisherKey}
    ensures r[PublisherKey] == PublisherTag(publisher)
    ensures forall k :: k in metadata && k != PublisherKey ==> r[k] == metadata[k]
  {
    metadata[PublisherKey := PublisherTag(publisher)]
  }

  /** The parameters among `ops`, in order, repeats included. */
  function OperandParameters(ops: seq<Operand>): seq<Parameter>
    decreases |ops|
  {
    if |ops| == 0 then []
    else (if ops[0].Symbol? then [ops[0].parameter] else []) + OperandParameters(ops[1..])
  }

  /** Every parameter occurrence of a schedule, in order. */
  function ParameterList(children: seq<Timed>): seq<Parameter>
    decreases |children|
  {
    if |children| == 0 then []
    else OperandParameters(children[0].instruction.operands) + ParameterList(children[1..])
  }

  function NamesOf(ps: seq<Parameter>): (r: seq<string>)
    ensures |r| == |ps| && forall i :: 0 <= i < |ps| ==> r[i] == ps[i].name
  {
    seq(|ps|, i requires 0 <= i < |ps| => ps[i].name)
  }

  function AssignOperand(o: Operand, values: map<Parameter, Value>): Operand {
    if o.Symbol? && o.parameter in values then Fixed(values[o.parameter]) else o
  }

  function AssignOperands(ops: seq<Operand>, values: map<Parameter, Value>): (r: seq<Operand>)
    ensures |r| == |ops| && forall i :: 0 <= i < |ops| ==> r[i] == AssignOperand(ops[i], values)
  {
    seq(|ops|, i requires 0 <= i < |ops| => AssignOperand(ops[i], values))
  }

  function AssignTimed(t: Timed, values: map<Parameter, Value>): Timed {
    Timed(t.t0, Instruction(t.instruction.opcode, AssignOperands(t.instruction.operands, values)))
  }

  /** Substitutes `values` for the parameters it names; the rest stay symbolic. */
  function AssignAll(children: seq<Timed>, values: map<Parameter, Value>): (r: seq<Timed>)
    ensures |r| == |children| && forall i :: 0 <= i < |children| ==> r[i] == AssignTimed(children[i], values)
  {
    seq(|children|, i requires 0 <= i < |children| => AssignTimed(children[i], values))
  }

  lemma {:induction false} AssignedOperandParameters(ops: seq<Operand>, values: map<Parameter, Value>)
    ensures forall p :: p in OperandParameters(AssignOperands(ops, values)) <==> p in OperandParameters(ops) && p !in values
    decreases |ops|
  {
    if |ops| > 0 {
      AssignedOperandParameters(ops[1..], values);
      assert AssignOperands(ops, values)[1..] == AssignOperands(ops[1..], values);
    }
  }

  /** After assignment the parameters left are exactly those not assigned. */
  lemma {:induction false} AssignedParameters(children: seq<Timed>, values: map<Parameter, Value>)
    ensures forall p :: p in ParameterList(AssignAll(children, values)) <==> p in ParameterList(children) && p !in values
    decreases |children|
  {
    if |children| > 0 {
      AssignedParameters(children[1..], values);
      AssignedOperandParameters(children[0].instruction.operands, values);
      assert AssignAll(children, values)[1..] == AssignAll(children[1..], values);
    }
  }

  /** Assigning in two steps is assigning once, earlier values winning. */
  lemma AssignTwice(children: seq<Timed>, first: map<Parameter, Value>, second: map<Parameter, Value>)
    ensures AssignAll(AssignAll(children, first), second) == AssignAll(children, second + first)
  {
    forall i | 0 <= i < |children|
      ensures AssignTimed(AssignTimed(children[i], first), second) == AssignTimed(children[i], second + first)
    {
      var ops := children[i].instruction.operands;
      assert AssignOperands(AssignOperands(ops, first), second) == AssignOperands(ops, second + first);
    }
  }

  /** A schedule object: `name`, a `metadata` map callers may change in
      place, and its instructions in insertion order. */
  class Schedule {
    var name: string
    var metadata: map<string, MetaValue>
    var children: seq<Timed>

    constructor (name: string, metadata: map<string, MetaValue>, children: seq<Timed>)
      ensures Snapshot() == ScheduleValue(name, metadata, children)
    {
      this.name := name;
      this.metadata := metadata;
      this.children := children;
    }

    function Snapshot(): ScheduleValue
      reads this
    {
      ScheduleValue(name, metadata, children)
    }

    /** `schedule.parameters`: the set of parameter objects it mentions. */
    function Parameters(): set<Parameter>
      reads this
    {
      set p | p in ParameterList(children)
    }

    /** `insert(t0, instruction, inplace=True)`. */
    method Insert(t0: nat, instruction: Instruction)
      modifies this
      ensures Snapshot() == old(Snapshot()).(children := old(children) + [Timed(t0, instruction)])
    {
      children := children + [Timed(t0, instruction)];
    }

    /** `assign_parameters(values, inplace=False)`: a new schedule; this one is unchanged. */
    method AssignParameters(values: map<Parameter, Value>) returns (r: Schedule)
      ensures fresh(r)
      ensures r.Snapshot() == Snapshot().(children := AssignAll(children, values))
    {
      r := new Schedule(name, metadata, AssignAll(children, values));
    }
  }
}
