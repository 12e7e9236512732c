/** The logic `ScheduleDef` and its subclass share: checking the user's
    argument names, deriving the ordered signature from a schedule, choosing
    which parameters a bound call assigns, and the display text. */
module Signatures {
  import opened Common
  import opened Names
  import opened Schedules
  import Binding

  /** An element of the `arguments` a caller passes: a `str` or some other object. */
  datatype PyObject = PyStr(text: string) | PyOther(token: nat)

  function Texts(objects: seq<PyObject>): (r: Option<seq<string>>)
    ensures r.Some? <==> forall i :: 0 <= i < |objects| ==> objects[i].PyStr?
    ensures r.Some? ==> |r.value| == |objects| && forall i :: 0 <= i < |objects| ==> r.value[i] == objects[i].text
    decreases |objects|
  {
    if |objects| == 0 then Some([])
    else if !objects[0].PyStr? then None
    else match Texts(objects[1..])
      case None => None
      case Some(rest) => Some([objects[0].text] + rest)
  }

  /** The constructor's check of `arguments`. No list and an empty list both
      mean "no names given", which later selects the sorted signature. */
  function CheckArguments(arguments: Option<seq<PyObject>>): (r: Result<seq<string>>)
    ensures r.Err? <==> arguments.Some? && exists i :: 0 <= i < |arguments.value| && arguments.value[i].PyOther?
    ensures r.Err? ==> r.error == InvalidArguments
    ensures r.Ok? && arguments.Some? ==>
      |r.value| == |arguments.value| && forall i :: 0 <= i < |r.value| ==> r.value[i] == arguments.value[i].text
    ensures arguments.None? || arguments == Some([]) ==> r == Ok([])
  {
    match arguments
    case None => Ok([])
    case Some(objects) =>
      if |objects| == 0 then Ok([])
      else match Texts(objects)
        case None => Err(InvalidArguments)
        case Some(names) => Ok(names)
  }

  /** A signature `inspect.Signature` accepts: identifiers, none twice. */
  predicate WellFormedSignature(names: seq<string>) {
    Distinct(names) && forall n :: n in names ==> ValidName(n)
  }

  /** Building one `inspect.Parameter` per name, then the `inspect.Signature`. */
  function SignatureOf(argnames: seq<string>): (r: Result<seq<string>>)
    ensures r.Ok? <==> WellFormedSignature(argnames)
    ensures r.Ok? ==> r.value == argnames
    ensures r.Err? ==> r.error == (if forall n :: n in argnames ==> ValidName(n) then DuplicateParameterName else InvalidParameterName)
  {
    if exists n :: n in argnames && !ValidName(n) then Err(InvalidParameterName)
    else if !Distinct(argnames) then Err(DuplicateParameterName)
    else Ok(argnames)
  }

  /** `_parse_argument` on a schedule whose parameter names are
      `parameterNames` (in occurrence order, repeats included). */
  function DeriveSignature(userArguments: seq<string>, parameterNames: seq<string>): (r: Result<seq<string>>)
    ensures r.Ok? ==> WellFormedSignature(r.value) && Elements(r.value) == Elements(parameterNames)
    ensures r.Ok? && |userArguments| == 0 ==> StrictlySorted(r.value)
    ensures r.Ok? && |userArguments| > 0 ==> r.value == userArguments
    ensures r == Err(ArgumentMismatch) <==> |userArguments| > 0 && Elements(userArguments) != Elements(parameterNames)
    ensures r.Ok? <==>
      && (forall n :: n in parameterNames ==> ValidName(n))
      && (|userArguments| == 0 || (Elements(userArguments) == Elements(parameterNames) && Distinct(userArguments)))
  {
    if |userArguments| > 0 then
      if Elements(userArguments) != Elements(parameterNames) then Err(ArgumentMismatch)
      else
        assert forall n :: n in userArguments <==> n in parameterNames by {
          forall n
            ensures n in userArguments <==> n in parameterNames
          {
            assert n in userArguments <==> n in Elements(userArguments);
            assert n in parameterNames <==> n in Elements(parameterNames);
          }
        }
        SignatureOf(userArguments)
    else
      var sorted := SortedDistinct(parameterNames);
      SortedIsDistinct(sorted);
      assert forall n :: n in sorted <==> n in parameterNames by {
        forall n
          ensures n in sorted <==> n in parameterNames
        {
          assert n in sorted <==> n in Elements(sorted);
          assert n in parameterNames <==> n in Elements(parameterNames);
        }
      }
      SignatureOf(sorted)
  }

  /** The signature of a schedule's definition. */
  function Derive(userArguments: seq<string>, children: seq<Timed>): Result<seq<string>> {
    DeriveSignature(userArguments, NamesOf(ParameterList(children)))
  }

  /** Without user names, the signature is `sorted(set(names))`: it depends
      on which names occur, not on their order or repeats. */
  lemma SortedSignatureIsCanonical(names1: seq<string>, names2: seq<string>)
    requires Elements(names1) == Elements(names2)
    ensures DeriveSignature([], names1) == DeriveSignature([], names2)
  {
    SortedUnique(SortedDistinct(names1), SortedDistinct(names2));
  }

  /** The `value_dict` that `get_schedule` builds: every parameter of the
      definition whose name was bound, mapped to the bound value. */
  function ValueDict(parameters: set<Parameter>, bound: map<string, Value>): (values: map<Parameter, Value>)
    ensures forall p :: p in values <==> p in parameters && p.name in bound
    ensures forall p :: p in values ==> values[p] == bound[p.name]
  {
    map p | p in parameters && p.name in bound :: bound[p.name]
  }

  /** What partial binding does to one operand. */
  function Resolve(o: Operand, bound: map<string, Value>): Operand {
    match o
    case Symbol(p) => if p.name in bound then Fixed(bound[p.name]) else o
    case Fixed(_) => o
  }

  lemma {:induction false} SymbolsAreListed(ops: seq<Operand>, k: nat)
    requires k < |ops| && ops[k].Symbol?
    ensures ops[k].parameter in OperandParameters(ops)
    decreases k
  {
    if k > 0 {
      SymbolsAreListed(ops[1..], k - 1);
    }
  }

  lemma {:induction false} ChildSymbolsAreListed(children: seq<Timed>, i: nat, k: nat)
    requires i < |children| && k < |children[i].instruction.operands| && children[i].instruction.operands[k].Symbol?
    ensures children[i].instruction.operands[k].parameter in ParameterList(children)
    decreases i
  {
    if i == 0 {
      SymbolsAreListed(children[0].instruction.operands, k);
    } else {
      ChildSymbolsAreListed(children[1..], i - 1, k);
    }
  }

  /** Partial assignment: each operand naming a bound parameter takes the
      bound value (every parameter of that name the same value), the others
      stay as they were, and the parameters left are exactly the unbound ones. */
  lemma PartialAssignment(children: seq<Timed>, bound: map<string, Value>)
    ensures var result := AssignAll(children, ValueDict((set p | p in ParameterList(children)), bound));
      && |result| == |children|
      && (forall i :: 0 <= i < |children| ==>
            && result[i].t0 == children[i].t0
            && result[i].instruction.opcode == children[i].instruction.opcode
            && |result[i].instruction.operands| == |children[i].instruction.operands|
            && forall k :: 0 <= k < |children[i].instruction.operands| ==>
                 result[i].instruction.operands[k] == Resolve(children[i].instruction.operands[k], bound))
      && (forall p :: p in ParameterList(result) <==> p in ParameterList(children) && p.name !in bound)
  {
    var parameters := set p | p in ParameterList(children);
    var values := ValueDict(parameters, bound);
    AssignedParameters(children, values);
    forall i, k | 0 <= i < |children| && 0 <= k < |children[i].instruction.operands|
      ensures AssignOperand(children[i].instruction.operands[k], values) == Resolve(children[i].instruction.operands[k], bound)
    {
      if children[i].instruction.operands[k].Symbol? {
        ChildSymbolsAreListed(children, i, k);
      }
    }
  }

  /** `ScheduleDef.__str__`: the name, then the signature in parentheses if it is not empty. */
  function ScheduleText(name: string, signature: seq<string>): string {
    "Schedule " + name + (if |signature| > 0 then "(" + Join(signature) + ")" else "")
  }

  /** `CallableDef.__str__`: the parentheses are always there. */
  function CallableText(name: string, signature: seq<string>): string {
    "Callable " + name + "(" + Join(signature) + ")"
  }

  lemma SignatureSplits(signature: seq<string>)
    requires WellFormedSignature(signature)
    ensures Split(Join(signature)) == signature
  {
    forall n | n in signature
      ensures |n| > 0 && ',' !in n
    {
      ValidNameHasNoComma(n);
    }
    SplitJoin(signature);
  }

  /** The schedule text names the schedule, and lists its signature, in
      order, in parentheses exactly when it is not empty. */
  lemma ScheduleTextSpec(name: string, signature: seq<string>)
    requires WellFormedSignature(signature)
    ensures var head, t := "Schedule " + name, ScheduleText(name, signature);
      && t[..|head|] == head
      && (|signature| == 0 <==> t == head)
      && (|signature| > 0 ==> t[|head|] == '(' && t[|t| - 1] == ')' && Split(t[|head| + 1..|t| - 1]) == signature)
  {
    var head, t := "Schedule " + name, ScheduleText(name, signature);
    if |signature| > 0 {
      SignatureSplits(signature);
      assert t == head + "(" + Join(signature) + ")";
      assert t[|head| + 1..|t| - 1] == Join(signature);
    }
  }

  /** The callable text names the callable and lists its parameters, in order. */
  lemma CallableTextSpec(name: string, signature: seq<string>)
    requires WellFormedSignature(signature)
    ensures var head, t := "Callable " + name, CallableText(name, signature);
      && t[..|head|] == head
      && t[|head|] == '(' && t[|t| - 1] == ')'
      && Split(t[|head| + 1..|t| - 1]) == signature
  {
    var head, t := "Callable " + name, CallableText(name, signature);
    SignatureSplits(signature);
    assert t == head + "(" + Join(signature) + ")";
    assert t[|head| + 1..|t| - 1] == Join(signature);
  }
}
