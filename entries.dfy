/** The calibration entries: a schedule held in memory (`ScheduleDef`), a
    callback that builds a schedule (`CallableDef`), and a Qobj instruction
    list converted to a schedule on first use (`PulseQobjDef`). */
module CalibrationEntries {
  import opened Common
  import opened Names
  import opened Binding
  import opened Schedules
  import opened Signatures

  /** Any of the three entry kinds, as the `other` of an equality test. */
  datatype Entry = ScheduleEntry(sd: ScheduleDef) | CallableEntry(cd: CallableDef) | QobjEntry(qd: PulseQobjDef)
  {
    function Holder(): object {
      match this
      case ScheduleEntry(e) => e
      case CallableEntry(e) => e
      case QobjEntry(e) => e
    }

    /** The entry's `_definition` attribute. */
    function Definition(): DefinitionRef
      reads Holder()
    {
      match this
      case ScheduleEntry(e) => ScheduleRef(e.definition)
      case CallableEntry(e) => CallbackRef(e.definition)
      case QobjEntry(e) => ScheduleRef(e.definition)
    }
  }

  /** A `_definition`: nothing yet, a schedule, or a callback. */
  datatype DefinitionRef = ScheduleRef(schedule: Schedule?) | CallbackRef(callback: Callback?)
  {
    predicate Missing() {
      match this
      case ScheduleRef(s) => s == null
      case CallbackRef(c) => c == null
    }
  }

  /** Python's `==` between two definitions: `None` equals only `None`, two
      schedules are equal when their instructions are, a callback equals only
      itself, and a schedule never equals a callback. */
  predicate DefinitionsEqual(a: DefinitionRef, b: DefinitionRef)
    reads (if a.ScheduleRef? then {a.schedule} else {}), (if b.ScheduleRef? then {b.schedule} else {})
  {
    if a.Missing() || b.Missing() then a.Missing() && b.Missing()
    else match (a, b)
      case (ScheduleRef(x), ScheduleRef(y)) => x.children == y.children
      case (CallbackRef(f), CallbackRef(g)) => f == g
      case _ => false
  }

  /** The signature after `_parse_argument`: the derived one, or, when the
      derivation raised, whatever it was before. */
  predicate Parsed(before: Option<seq<string>>, derived: Result<seq<string>>, after: Option<seq<string>>, outcome: Outcome) {
    match derived
    case Ok(signature) => after == Some(signature) && outcome == Pass
    case Err(e) => after == before && outcome == Fail(e)
  }

  function ResultObjects(r: Result<Schedule?>): set<Schedule> {
    if r.Ok? && r.value != null then {r.value} else {}
  }

  /** What `get_schedule` of a schedule entry returns when given arguments:
      the arguments are bound, partially, to the signature, and every
      parameter of the definition whose name was bound is assigned in a copy. */
  ghost predicate Instantiated(r: Result<Schedule?>, definition: Schedule?, signature: Option<seq<string>>,
                               args: seq<Value>, kwargs: map<string, Value>)
    reads definition, ResultObjects(r)
  {
    match signature
    case None => r == Err(Undefined)
    case Some(names) =>
      && definition != null
      && match BindPartial(Required<Value>(names), args, kwargs)
         case Err(_) => r == Err(BindFailure)
         case Ok(bound) =>
           && r.Ok? && r.value != null
           && r.value.Snapshot() == definition.Snapshot().(children := AssignAll(definition.children, ValueDict(definition.Parameters(), bound)))
  }

  /** `ScheduleDef.get_schedule` on a given definition and signature. The
      definition itself is never changed. */
  method Instantiate(definition: Schedule?, signature: Option<seq<string>>, args: seq<Value>, kwargs: map<string, Value>)
    returns (r: Result<Schedule?>)
    requires signature.Some? ==> definition != null
    ensures |args| == 0 && |kwargs| == 0 ==> r == Ok(definition)
    ensures |args| > 0 || |kwargs| > 0 ==> Instantiated(r, definition, signature, args, kwargs) && (r.Ok? ==> fresh(r.value))
  {
    if |args| == 0 && |kwargs| == 0 {
      return Ok(definition);
    }
    if signature.None? {
      return Err(Undefined);
    }
    var binding := BindPartial(Required<Value>(signature.value), args, kwargs);
    if binding.Err? {
      return Err(BindFailure);
    }
    var bound := binding.value;
    var parameters := definition.Parameters();
    var values: map<Parameter, Value> := map[];
    var remaining := parameters;
    while remaining != {}
      invariant remaining <= parameters
      invariant values == ValueDict(parameters - remaining, bound)
      decreases |remaining|
    {
      var p :| p in remaining;
      if p.name in bound {
        values := values[p := bound[p.name]];
      }
      remaining := remaining - {p};
    }
    assert parameters - remaining == parameters;
    var copy := definition.AssignParameters(values);
    r := Ok(copy);
  }

  /** Binding arguments to a schedule's signature and assigning them leaves
      as parameters exactly those named neither by a positional argument nor
      by a keyword. */
  lemma PartialBindLeavesUnbound(signature: seq<string>, children: seq<Timed>, args: seq<Value>, kwargs: map<string, Value>)
    requires WellFormedSignature(signature)
    ensures var binding := BindPartial(Required<Value>(signature), args, kwargs);
      binding.Ok? ==>
        && |args| <= |signature|
        && forall p :: p in ParameterList(AssignAll(children, ValueDict((set q | q in ParameterList(children)), binding.value)))
             <==> p in ParameterList(children) && p.name !in kwargs && p.name !in signature[..|args|]
  {
    var formals := Required<Value>(signature);
    BindPartialSpec(formals, args, kwargs);
    var binding := BindPartial(formals, args, kwargs);
    if binding.Ok? {
      PartialAssignment(children, binding.value);
      forall k
        ensures Declares(formals[..|args|], k) <==> k in signature[..|args|]
      {
        if Declares(formals[..|args|], k) {
          var j :| 0 <= j < |args| && formals[..|args|][j].name == k;
          assert signature[..|args|][j] == k;
        }
        if k in signature[..|args|] {
          var j :| 0 <= j < |args| && signature[..|args|][j] == k;
          assert formals[..|args|][j].name == k;
        }
      }
    }
  }

  /** `ScheduleDef.__str__` on a given definition and signature. */
  function ScheduleDefText(definition: Schedule?, signature: Option<seq<string>>): (r: Result<string>)
    reads definition
    ensures r.Ok? <==> definition != null && signature.Some?
    ensures r.Err? ==> r.error == Undefined
    ensures r.Ok? ==> r.value == ScheduleText(definition.name, signature.value)
  {
    if definition == null || signature.None? then Err(Undefined)
    else Ok(ScheduleText(definition.name, signature.value))
  }

  /** An entry holding a schedule in memory. */
  class ScheduleDef {
    /** The names the user gave, in order; empty when none were given. */
    var userArguments: seq<string>
    var definition: Schedule?
    var signature: Option<seq<string>>

    ghost predicate Valid()
      reads this
    {
      signature.Some? ==> definition != null && WellFormedSignature(signature.value)
    }

    constructor (userArguments: seq<string>)
      ensures Valid()
      ensures this.userArguments == userArguments && definition == null && signature == None
    {
      this.userArguments := userArguments;
      definition := null;
      signature := None;
    }

    /** `ScheduleDef(arguments)`: raises unless every argument is a string. */
    static method Create(arguments: Option<seq<PyObject>>) returns (r: Result<ScheduleDef>)
      ensures CheckArguments(arguments).Err? ==> r == Err(InvalidArguments)
      ensures CheckArguments(arguments).Ok? ==>
        && r.Ok? && fresh(r.value) && r.value.Valid()
        && r.value.userArguments == CheckArguments(arguments).value
        && r.value.definition == null && r.value.signature == None
    {
      match CheckArguments(arguments)
      case Err(e) =>
        r := Err(e);
      case Ok(names) =>
        var entry := new ScheduleDef(names);
        r := Ok(entry);
    }

    /** `_parse_argument`: on failure the old signature stays. */
    method ParseArgument() returns (outcome: Outcome)
      requires Valid() && definition != null
      modifies this`signature
      ensures Valid()
      ensures Parsed(old(signature), Derive(userArguments, definition.children), signature, outcome)
    {
      match Derive(userArguments, definition.children)
      case Ok(names) =>
        signature := Some(names);
        outcome := Pass;
      case Err(e) =>
        outcome := Fail(e);
    }

    /** `define`: keep the schedule, tag it as Qiskit's unless it already has
        a publisher, and derive the signature from it. */
    method Define(schedule: Schedule) returns (outcome: Outcome)
      requires Valid()
      modifies this, schedule
      ensures Valid()
      ensures definition == schedule && userArguments == old(userArguments)
      ensures schedule.Snapshot() == old(schedule.Snapshot()).(metadata := TagIfAbsent(old(schedule.metadata), Qiskit))
      ensures Parsed(old(signature), Derive(userArguments, schedule.children), signature, outcome)
    {
      definition := schedule;
      if PublisherKey !in schedule.metadata {
        schedule.metadata := schedule.metadata[PublisherKey := PublisherTag(Qiskit)];
      }
      outcome := ParseArgument();
    }

    method GetSignature() returns (r: Option<seq<string>>)
      ensures r == signature
    {
      r := signature;
    }

    /** `get_schedule`: the definition itself without arguments, otherwise a
        parameter-assigned copy; the entry is not changed. */
    method GetSchedule(args: seq<Value>, kwargs: map<string, Value>) returns (r: Result<Schedule?>)
      requires Valid()
      ensures |args| == 0 && |kwargs| == 0 ==> r == Ok(definition)
      ensures |args| > 0 || |kwargs| > 0 ==> Instantiated(r, definition, signature, args, kwargs) && (r.Ok? ==> fresh(r.value))
    {
      r := Instantiate(definition, signature, args, kwargs);
    }

    /** `__eq__`: equality of the definitions. */
    method Equals(other: Entry) returns (r: bool)
      ensures r == DefinitionsEqual(ScheduleRef(definition), other.Definition())
    {
      r := DefinitionsEqual(ScheduleRef(definition), other.Definition());
    }

    /** `__str__`. */
    function ToString(): (r: Result<string>)
      reads this, definition
      ensures r.Ok? <==> definition != null && signature.Some?
      ensures r.Ok? ==> r.value == ScheduleText(definition.name, signature.value)
    {
      ScheduleDefText(definition, signature)
    }
  }

  /** Python's `is` between two definitions: `None` is `None`, otherwise the same object. */
  predicate SameObject(a: DefinitionRef, b: DefinitionRef) {
    if a.Missing() || b.Missing() then a.Missing() && b.Missing() else a == b
  }

  /** A Python function that returns a schedule. Its parameters, with their
      defaults, are fixed when it is written; what it returns is a function
      of the arguments it is called with. */
  class Callback {
    /** `__name__`. */
    const name: string
    const formals: seq<Formal<Value>>
    const body: map<string, Value> -> ScheduleValue
    /** How many times the function has been called. */
    ghost var calls: nat

    /** A Python function's parameters are distinct identifiers. */
    predicate WellFormed() {
      WellFormedSignature(FormalNames(formals))
    }

    constructor (name: string, formals: seq<Formal<Value>>, body: map<string, Value> -> ScheduleValue)
      requires WellFormedSignature(FormalNames(formals))
      ensures WellFormed() && this.name == name && this.formals == formals && this.body == body && calls == 0
    {
      this.name := name;
      this.formals := formals;
      this.body := body;
      calls := 0;
    }

    /** A call with keyword arguments: a new schedule each time. */
    method Invoke(arguments: map<string, Value>) returns (s: Schedule)
      modifies this
      ensures fresh(s) && s.Snapshot() == body(arguments) && calls == old(calls) + 1
    {
      var v := body(arguments);
      s := new Schedule(v.name, v.metadata, v.children);
      calls := calls + 1;
    }
  }

  /** An entry holding a callback that builds the schedule on each request. */
  class CallableDef {
    var definition: Callback?
    /** The callback's parameters, as `inspect.signature` reports them. */
    var signature: Option<seq<Formal<Value>>>

    ghost predicate Valid()
      reads this
    {
      && (definition == null <==> signature.None?)
      && (definition != null ==> signature == Some(definition.formals) && definition.WellFormed())
    }

    constructor ()
      ensures Valid() && definition == null && signature == None
    {
      definition := null;
      signature := None;
    }

    /** `define`: keep the callback and its signature. */
    method Define(callback: Callback)
      requires callback.WellFormed()
      modifies this
      ensures Valid() && definition == callback && signature == Some(callback.formals)
    {
      definition := callback;
      signature := Some(callback.formals);
    }

    method GetSignature() returns (r: Option<seq<Formal<Value>>>)
      ensures r == signature
    {
      r := signature;
    }

    /** `get_schedule`: bind every argument (defaults filling the rest), call
        the callback once with them, and tag the result as Qiskit's unless
        the callback already named a publisher. A failed bind calls nothing. */
    method GetSchedule(args: seq<Value>, kwargs: map<string, Value>) returns (r: Result<Schedule>)
      requires Valid()
      modifies definition
      ensures definition == null ==> r == Err(Undefined)
      ensures definition != null ==>
        match BindFull(definition.formals, args, kwargs)
        case Err(_) => r == Err(BindFailure) && definition.calls == old(definition.calls)
        case Ok(bound) =>
          && r.Ok? && fresh(r.value) && definition.calls == old(definition.calls) + 1
          && r.value.Snapshot() == definition.body(bound).(metadata := TagIfAbsent(definition.body(bound).metadata, Qiskit))
    {
      if signature.None? {
        return Err(Undefined);
      }
      var binding := BindFull(signature.value, args, kwargs);
      if binding.Err? {
        return Err(BindFailure);
      }
      var schedule := definition.Invoke(binding.value);
      if PublisherKey !in schedule.metadata {
        schedule.metadata := schedule.metadata[PublisherKey := PublisherTag(Qiskit)];
      }
      r := Ok(schedule);
    }

    /** `__eq__`: the same callback object, or both undefined. */
    method Equals(other: Entry) returns (r: bool)
      ensures r == SameObject(CallbackRef(definition), other.Definition())
    {
      r := SameObject(CallbackRef(definition), other.Definition());
    }

    /** `__str__`. */
    function ToString(): (r: Result<string>)
      reads this
      ensures r.Ok? <==> definition != null && signature.Some?
      ensures r.Ok? ==> r.value == CallableText(definition.name, FormalNames(signature.value))
    {
      if signature.None? || definition == null then Err(Undefined)
      else Ok(CallableText(definition.name, FormalNames(signature.value)))
    }
  }

  /** A Qobj instruction: its start time and a payload only the converter reads. */
  datatype QobjInstruction = QobjInstruction(t0: nat, payload: nat)

  /** The instructions converted from one Qobj instruction, each placed at its start time. */
  function Place(t0: nat, instructions: seq<Instruction>): (r: seq<Timed>)
    ensures |r| == |instructions|
    ensures forall i :: 0 <= i < |r| ==> r[i] == Timed(t0, instructions[i])
  {
    seq(|instructions|, i requires 0 <= i < |instructions| => Timed(t0, instructions[i]))
  }

  /** Everything `_build_schedule` inserts, in insertion order. */
  function Expand(source: seq<QobjInstruction>, convert: QobjInstruction -> seq<Instruction>): seq<Timed>
    decreases |source|
  {
    if |source| == 0 then []
    else
      var last := source[|source| - 1];
      Expand(source[..|source| - 1], convert) + Place(last.t0, convert(last))
  }

  /** Converting a concatenation converts each part in turn. */
  lemma {:induction false} ExpandConcat(a: seq<QobjInstruction>, b: seq<QobjInstruction>, convert: QobjInstruction -> seq<Instruction>)
    ensures Expand(a + b, convert) == Expand(a, convert) + Expand(b, convert)
    decreases |b|
  {
    if |b| == 0 {
      assert a + b == a;
    } else {
      var init := b[..|b| - 1];
      assert (a + b)[..|a + b| - 1] == a + init;
      assert (a + b)[|a + b| - 1] == b[|b| - 1];
      ExpandConcat(a, init, convert);
    }
  }

  /** The built schedule holds exactly the converted instructions, each at
      the start time of the Qobj instruction it came from. */
  lemma {:induction false} ExpandMembers(source: seq<QobjInstruction>, convert: QobjInstruction -> seq<Instruction>)
    ensures forall t :: t in Expand(source, convert) <==>
      exists k :: 0 <= k < |source| && t.t0 == source[k].t0 && t.instruction in convert(source[k])
    decreases |source|
  {
    if |source| > 0 {
      var init, last := source[..|source| - 1], source[|source| - 1];
      ExpandMembers(init, convert);
      forall t
        ensures t in Expand(source, convert) <==>
          exists k :: 0 <= k < |source| && t.t0 == source[k].t0 && t.instruction in convert(source[k])
      {
        assert t in Place(last.t0, convert(last)) <==> t.t0 == last.t0 && t.instruction in convert(last) by {
          var placed := Place(last.t0, convert(last));
          if t in placed {
            var i :| 0 <= i < |placed| && placed[i] == t;
          }
          if t.t0 == last.t0 && t.instruction in convert(last) {
            var i :| 0 <= i < |convert(last)| && convert(last)[i] == t.instruction;
            assert placed[i] == t;
          }
        }
        if t in Expand(init, convert) {
          var k :| 0 <= k < |init| && t.t0 == init[k].t0 && t.instruction in convert(init[k]);
          assert source[k] == init[k];
        }
        if exists k :: 0 <= k < |source| && t.t0 == source[k].t0 && t.instruction in convert(source[k]) {
          var k :| 0 <= k < |source| && t.t0 == source[k].t0 && t.instruction in convert(source[k]);
          if k < |init| {
            assert init[k] == source[k];
          }
        }
      }
    }
  }

  /** The schedule `_build_schedule` makes: named after the entry, published
      by the backend provider, holding the converted instructions. */
  function BuiltSchedule(name: string, source: seq<QobjInstruction>, convert: QobjInstruction -> seq<Instruction>): ScheduleValue {
    ScheduleValue(name, Tag(map[], BackendProvider), Expand(source, convert))
  }

  /** The signature a build derives, or why it raises. */
  function BuildResult(source: Option<seq<QobjInstruction>>, convert: QobjInstruction -> seq<Instruction>,
                       userArguments: seq<string>): Result<seq<string>>
  {
    match source
    case None => Err(NoSource)
    case Some(instructions) => Derive(userArguments, Expand(instructions, convert))
  }

  function OutcomeOf<T>(r: Result<T>): Outcome {
    match r
    case Ok(_) => Pass
    case Err(e) => Fail(e)
  }

  /** An entry holding Qobj instructions, converted to a schedule the first
      time a schedule or a signature is needed, and kept from then on. */
  class PulseQobjDef {
    var userArguments: seq<string>
    const converter: QobjInstruction -> seq<Instruction>
    const name: string
    var source: Option<seq<QobjInstruction>>
    var definition: Schedule?
    var signature: Option<seq<string>>
    /** How many schedules have been built from the source. */
    ghost var builds: nat

    /** At most one build ever happens, and it is what sets the definition. */
    ghost predicate Valid()
      reads this
    {
      && builds <= 1
      && (definition == null <==> builds == 0)
      && (signature.Some? ==> definition != null && WellFormedSignature(signature.value))
    }

    /** What a build started now would derive. */
    function Pending(): Result<seq<string>>
      reads this
    {
      BuildResult(source, converter, userArguments)
    }

    /** The state a build leaves when it started with signature `before`. */
    ghost predicate BuiltFrom(before: Option<seq<string>>)
      reads this, definition
    {
      match source
      case None => definition == null && builds == 0 && signature == before
      case Some(instructions) =>
        && definition != null && builds == 1
        && definition.Snapshot() == BuiltSchedule(name, instructions, converter)
        && signature == (match Pending() case Ok(names) => Some(names) case Err(_) => before)
    }

    constructor (userArguments: seq<string>, converter: QobjInstruction -> seq<Instruction>, name: string)
      ensures Valid()
      ensures this.userArguments == userArguments && this.converter == converter && this.name == name
      ensures source == None && definition == null && signature == None && builds == 0
    {
      this.userArguments := userArguments;
      this.converter := converter;
      this.name := name;
      source := None;
      definition := null;
      signature := None;
      builds := 0;
    }

    /** `PulseQobjDef(arguments, converter, name)`: the same check of the argument names. */
    static method Create(arguments: Option<seq<PyObject>>, converter: QobjInstruction -> seq<Instruction>, name: string)
      returns (r: Result<PulseQobjDef>)
      ensures CheckArguments(arguments).Err? ==> r == Err(InvalidArguments)
      ensures CheckArguments(arguments).Ok? ==>
        && r.Ok? && fresh(r.value) && r.value.Valid()
        && r.value.userArguments == CheckArguments(arguments).value
        && r.value.converter == converter && r.value.name == name
        && r.value.source == None && r.value.definition == null && r.value.builds == 0
    {
      match CheckArguments(arguments)
      case Err(e) =>
        r := Err(e);
      case Ok(names) =>
        var entry := new PulseQobjDef(names, converter, name);
        r := Ok(entry);
    }

    /** `_parse_argument`, inherited from `ScheduleDef`. */
    method ParseArgument() returns (outcome: Outcome)
      requires Valid() && definition != null
      modifies this`signature
      ensures Valid()
      ensures Parsed(old(signature), Derive(userArguments, definition.children), signature, outcome)
    {
      match Derive(userArguments, definition.children)
      case Ok(names) =>
        signature := Some(names);
        outcome := Pass;
      case Err(e) =>
        outcome := Fail(e);
    }

    /** `_build_schedule`: convert every Qobj instruction in order, insert
        the results at its start time, tag the schedule as the backend
        provider's, keep it, and derive the signature. */
    method BuildSchedule() returns (outcome: Outcome)
      requires Valid() && definition == null
      modifies this
      ensures Valid() && BuiltFrom(old(signature))
      ensures source == old(source) && userArguments == old(userArguments)
      ensures definition != null ==> fresh(definition)
      ensures outcome == OutcomeOf(Pending())
    {
      if source.None? {
        return Fail(NoSource);
      }
      var instructions := source.value;
      var schedule := new Schedule(name, map[], []);
      var k := 0;
      while k < |instructions|
        invariant 0 <= k <= |instructions|
        invariant schedule.Snapshot() == ScheduleValue(name, map[], Expand(instructions[..k], converter))
        modifies schedule
      {
        var q := instructions[k];
        var converted := converter(q);
        var j := 0;
        while j < |converted|
          invariant 0 <= j <= |converted|
          invariant schedule.Snapshot() == ScheduleValue(name, map[], Expand(instructions[..k], converter) + Place(q.t0, converted[..j]))
          modifies schedule
        {
          schedule.Insert(q.t0, converted[j]);
          assert Place(q.t0, converted[..j + 1]) == Place(q.t0, converted[..j]) + [Timed(q.t0, converted[j])];
          j := j + 1;
        }
        assert instructions[..k + 1][..k] == instructions[..k];
        assert converted[..j] == converted;
        k := k + 1;
      }
      assert instructions[..k] == instructions;
      schedule.metadata := Tag(schedule.metadata, BackendProvider);
      definition := schedule;
      builds := builds + 1;
      outcome := ParseArgument();
    }

    /** `define`: only the source is kept; nothing is built, and a schedule
        built earlier stays. */
    method Define(instructions: seq<QobjInstruction>)
      requires Valid()
      modifies this`source
      ensures Valid() && source == Some(instructions)
    {
      source := Some(instructions);
    }

    /** `get_signature`: builds first if nothing was built yet. */
    method GetSignature() returns (r: Result<Option<seq<string>>>)
      requires Valid()
      modifies this
      ensures Valid() && source == old(source) && userArguments == old(userArguments)
      ensures old(definition) != null ==> unchanged(this) && r == Ok(signature)
      ensures old(definition) == null ==>
        && BuiltFrom(old(signature)) && (definition != null ==> fresh(definition))
        && r == (match Pending() case Ok(names) => Ok(Some(names)) case Err(e) => Err(e))
    {
      if definition == null {
        var outcome := BuildSchedule();
        if outcome.Fail? {
          return Err(outcome.error);
        }
      }
      r := Ok(signature);
    }

    /** `get_schedule`: builds first if nothing was built yet, then behaves
        as a schedule entry. */
    method GetSchedule(args: seq<Value>, kwargs: map<string, Value>) returns (r: Result<Schedule?>)
      requires Valid()
      modifies this
      ensures Valid() && source == old(source) && userArguments == old(userArguments)
      ensures old(definition) != null ==> unchanged(this)
      ensures old(definition) == null ==> BuiltFrom(old(signature)) && (definition != null ==> fresh(definition))
      ensures old(definition) == null && Pending().Err? ==> r == Err(Pending().error)
      ensures old(definition) != null || Pending().Ok? ==>
        && (|args| == 0 && |kwargs| == 0 ==> r == Ok(definition))
        && (|args| > 0 || |kwargs| > 0 ==> Instantiated(r, definition, signature, args, kwargs) && (r.Ok? ==> fresh(r.value)))
    {
      if definition == null {
        var outcome := BuildSchedule();
        if outcome.Fail? {
          return Err(outcome.error);
        }
      }
      r := Instantiate(definition, signature, args, kwargs);
    }

    /** `__eq__`: against another Qobj entry, the sources are compared and
        nothing is built; against an unbuilt-here schedule entry, this entry
        builds first; otherwise the definitions are compared. */
    method Equals(other: Entry) returns (r: Result<bool>)
      requires Valid()
      modifies this
      ensures Valid() && source == old(source) && userArguments == old(userArguments)
      ensures other.QobjEntry? ==> unchanged(this) && r == Ok(source == other.qd.source)
      ensures other.ScheduleEntry? && old(definition) == null ==>
        && BuiltFrom(old(signature))
        && (Pending().Err? ==> r == Err(Pending().error))
        && (Pending().Ok? ==> r == Ok(DefinitionsEqual(ScheduleRef(definition), other.Definition())))
      ensures other.CallableEntry? || (other.ScheduleEntry? && old(definition) != null) ==>
        unchanged(this) && r == Ok(DefinitionsEqual(ScheduleRef(definition), other.Definition()))
    {
      if other.QobjEntry? {
        return Ok(source == other.qd.source);
      }
      if other.ScheduleEntry? && definition == null {
        var outcome := BuildSchedule();
        if outcome.Fail? {
          return Err(outcome.error);
        }
      }
      r := Ok(DefinitionsEqual(ScheduleRef(definition), other.Definition()));
    }

    /** `__str__`: never builds; an unbuilt entry prints a fixed text. */
    function ToString(): (r: Result<string>)
      reads this, definition
      ensures definition == null ==> r == Ok("PulseQobj")
      ensures definition != null ==> (r.Ok? <==> signature.Some?)
      ensures definition != null && r.Ok? ==> r.value == ScheduleText(definition.name, signature.value)
    {
      if definition == null then Ok("PulseQobj")
      else ScheduleDefText(definition, signature)
    }
  }
}
