/** Matching call arguments against an ordered list of positional-or-keyword
    parameters, as `inspect.Signature.bind`, `bind_partial` and
    `BoundArguments.apply_defaults` do. The values are opaque (`V`). */
module Binding {
  import opened Common

  /** A positional-or-keyword parameter and its default, if it declares one. */
  datatype Formal<V> = Formal(name: string, default: Option<V>)

  /** The parameter names in declaration order (`signature.parameters.keys()`). */
  function FormalNames<V>(formals: seq<Formal<V>>): (r: seq<string>)
    ensures |r| == |formals| && forall i :: 0 <= i < |formals| ==> r[i] == formals[i].name
  {
    seq(|formals|, i requires 0 <= i < |formals| => formals[i].name)
  }

  /** The parameters of `names`, none with a default (how `ScheduleDef` builds its signature). */
  function Required<V>(names: seq<string>): (r: seq<Formal<V>>)
    ensures |r| == |names|
    ensures forall i :: 0 <= i < |r| ==> r[i].name == names[i] && r[i].default.None?
  {
    seq(|names|, i requires 0 <= i < |names| => Formal(names[i], None))
  }

  /** No two parameters share a name (Python refuses such a signature). */
  predicate DistinctNames<V>(formals: seq<Formal<V>>) {
    forall i, j :: 0 <= i < j < |formals| ==> formals[i].name != formals[j].name
  }

  /** Some parameter of `formals` is called `k`. */
  predicate Declares<V>(formals: seq<Formal<V>>, k: string) {
    exists j :: 0 <= j < |formals| && formals[j].name == k
  }

  lemma DeclaresCons<V>(formals: seq<Formal<V>>, k: string)
    requires |formals| > 0
    ensures Declares(formals, k) <==> formals[0].name == k || Declares(formals[1..], k)
  {
    if Declares(formals, k) && formals[0].name != k {
      var j :| 0 <= j < |formals| && formals[j].name == k;
      assert formals[1..][j - 1].name == k;
    }
    if Declares(formals[1..], k) {
      var j :| 0 <= j < |formals[1..]| && formals[1..][j].name == k;
      assert formals[j + 1].name == k;
    }
  }

  /** Binding after the positional arguments: every keyword names a parameter,
      and, for a full bind, every parameter without a default gets a keyword. */
  predicate KeywordsBindable<V>(formals: seq<Formal<V>>, kwargs: map<string, V>, partial: bool) {
    && (forall k :: k in kwargs ==> Declares(formals, k))
    && (partial || forall j :: 0 <= j < |formals| && formals[j].default.None? ==> formals[j].name in kwargs)
  }

  /** When a call binds: no more positionals than parameters, no parameter
      given both positionally and by keyword, and the rest as above. */
  predicate Bindable<V>(formals: seq<Formal<V>>, args: seq<V>, kwargs: map<string, V>, partial: bool) {
    && |args| <= |formals|
    && (forall i :: 0 <= i < |args| ==> formals[i].name !in kwargs)
    && KeywordsBindable(formals[|args|..], kwargs, partial)
  }

  /** The positional arguments, keyed by the names they fill. */
  function Positional<V>(formals: seq<Formal<V>>, args: seq<V>): map<string, V>
    requires |args| <= |formals|
    decreases |args|
  {
    if |args| == 0 then map[]
    else map[formals[0].name := args[0]] + Positional(formals[1..], args[1..])
  }

  /** The keyword phase of the binder: walks the remaining parameters,
      taking each one's keyword out of `kwargs`; leftovers are unexpected. */
  function BindKeywords<V>(formals: seq<Formal<V>>, kwargs: map<string, V>, partial: bool, acc: map<string, V>)
    : Result<map<string, V>>
    decreases |formals|
  {
    if |formals| == 0 then
      if |kwargs| == 0 then Ok(acc) else Err(BindFailure)
    else
      var f := formals[0];
      if f.name in kwargs then
        BindKeywords(formals[1..], kwargs - {f.name}, partial, acc[f.name := kwargs[f.name]])
      else if !partial && f.default.None? then
        Err(BindFailure)
      else
        BindKeywords(formals[1..], kwargs, partial, acc)
  }

  /** The positional phase: each positional argument takes the next
      parameter, unless none is left or the parameter also came by keyword. */
  function BindPositional<V>(formals: seq<Formal<V>>, args: seq<V>, kwargs: map<string, V>, partial: bool, acc: map<string, V>)
    : Result<map<string, V>>
    decreases |args|
  {
    if |args| == 0 then BindKeywords(formals, kwargs, partial, acc)
    else if |formals| == 0 then Err(BindFailure)
    else if formals[0].name in kwargs then Err(BindFailure)
    else BindPositional(formals[1..], args[1..], kwargs, partial, acc[formals[0].name := args[0]])
  }

  /** `signature.bind_partial(*args, **kwargs).arguments`. */
  function BindPartial<V>(formals: seq<Formal<V>>, args: seq<V>, kwargs: map<string, V>): Result<map<string, V>> {
    BindPositional(formals, args, kwargs, true, map[])
  }

  /** Fills every parameter still unbound that declares a default. */
  function ApplyDefaults<V>(formals: seq<Formal<V>>, arguments: map<string, V>): map<string, V>
    decreases |formals|
  {
    if |formals| == 0 then arguments
    else
      var f := formals[0];
      var filled := if f.name !in arguments && f.default.Some? then arguments[f.name := f.default.value] else arguments;
      ApplyDefaults(formals[1..], filled)
  }

  /** `bound = signature.bind(*args, **kwargs); bound.apply_defaults(); bound.arguments`. */
  function BindFull<V>(formals: seq<Formal<V>>, args: seq<V>, kwargs: map<string, V>): Result<map<string, V>> {
    match BindPositional(formals, args, kwargs, false, map[])
    case Ok(m) => Ok(ApplyDefaults(formals, m))
    case Err(e) => Err(e)
  }

  lemma DistinctTail<V>(formals: seq<Formal<V>>)
    requires DistinctNames(formals) && |formals| > 0
    ensures DistinctNames(formals[1..]) && !Declares(formals[1..], formals[0].name)
  {
    forall j | 0 <= j < |formals[1..]|
      ensures formals[1..][j].name != formals[0].name
    {
      assert formals[1..][j] == formals[j + 1];
    }
  }

  /** How `KeywordsBindable` changes as the keyword phase consumes one parameter. */
  lemma KeywordsBindableStep<V>(formals: seq<Formal<V>>, kwargs: map<string, V>, partial: bool)
    requires DistinctNames(formals) && |formals| > 0
    ensures var f, rest := formals[0], formals[1..];
      && (f.name in kwargs ==> (KeywordsBindable(rest, kwargs - {f.name}, partial) <==> KeywordsBindable(formals, kwargs, partial)))
      && (f.name !in kwargs && (partial || f.default.Some?) ==> (KeywordsBindable(rest, kwargs, partial) <==> KeywordsBindable(formals, kwargs, partial)))
      && (f.name !in kwargs && !partial && f.default.None? ==> !KeywordsBindable(formals, kwargs, partial))
  {
    var f, rest := formals[0], formals[1..];
    DistinctTail(formals);
    forall k
      ensures Declares(formals, k) <==> f.name == k || Declares(rest, k)
    {
      DeclaresCons(formals, k);
    }
    forall j | 0 <= j < |rest|
      ensures rest[j] == formals[j + 1] && rest[j].name != f.name
    {
      assert Declares(rest, rest[j].name);
    }
    var kw := if f.name in kwargs then kwargs - {f.name} else kwargs;
    if f.name in kwargs || partial || f.default.Some? {
      if KeywordsBindable(rest, kw, partial) && !partial {
        forall j | 0 <= j < |formals| && formals[j].default.None?
          ensures formals[j].name in kwargs
        {
          if j > 0 {
            assert formals[j] == rest[j - 1];
          }
        }
      }
    }
  }

  lemma {:induction false} BindKeywordsSpec<V>(formals: seq<Formal<V>>, kwargs: map<string, V>, partial: bool, acc: map<string, V>)
    requires DistinctNames(formals)
    ensures BindKeywords(formals, kwargs, partial, acc)
         == if KeywordsBindable(formals, kwargs, partial) then Ok(acc + kwargs) else Err(BindFailure)
    decreases |formals|
  {
    if |formals| == 0 {
      if |kwargs| != 0 {
        var k :| k in kwargs;
        assert !Declares(formals, k);
      } else {
        assert kwargs == map[];
        assert acc + kwargs == acc;
      }
    } else {
      var f, rest := formals[0], formals[1..];
      DistinctTail(formals);
      KeywordsBindableStep(formals, kwargs, partial);
      if f.name in kwargs {
        var kw := kwargs - {f.name};
        var acc' := acc[f.name := kwargs[f.name]];
        BindKeywordsSpec(rest, kw, partial, acc');
        assert acc' + kw == acc + kwargs;
      } else if partial || f.default.Some? {
        BindKeywordsSpec(rest, kwargs, partial, acc);
      }
    }
  }

  lemma {:induction false} BindPositionalSpec<V>(formals: seq<Formal<V>>, args: seq<V>, kwargs: map<string, V>, partial: bool, acc: map<string, V>)
    requires DistinctNames(formals)
    ensures BindPositional(formals, args, kwargs, partial, acc)
         == if Bindable(formals, args, kwargs, partial) then Ok(acc + Positional(formals, args) + kwargs) else Err(BindFailure)
    decreases |args|
  {
    if |args| == 0 {
      BindKeywordsSpec(formals, kwargs, partial, acc);
      assert formals[0..] == formals;
      assert acc + Positional(formals, args) == acc;
    } else if |formals| == 0 {
    } else if formals[0].name in kwargs {
    } else {
      var f, rest := formals[0], formals[1..];
      DistinctTail(formals);
      var acc' := acc[f.name := args[0]];
      BindPositionalSpec(rest, args[1..], kwargs, partial, acc');
      if |args| <= |formals| {
        assert rest[|args[1..]|..] == formals[|args|..];
        assert Bindable(rest, args[1..], kwargs, partial) == Bindable(formals, args, kwargs, partial) by {
          if Bindable(rest, args[1..], kwargs, partial) {
            forall i | 0 <= i < |args|
              ensures formals[i].name !in kwargs
            {
              if i > 0 {
                assert formals[i] == rest[i - 1];
              }
            }
          }
          if Bindable(formals, args, kwargs, partial) {
            forall i | 0 <= i < |args[1..]|
              ensures rest[i].name !in kwargs
            {
              assert formals[i + 1] == rest[i];
            }
          }
        }
        assert acc' + Positional(rest, args[1..]) == acc + Positional(formals, args);
      }
    }
  }

  /** What the positional arguments bind: the first `|args|` names, in order. */
  lemma {:induction false} PositionalSpec<V>(formals: seq<Formal<V>>, args: seq<V>)
    requires |args| <= |formals|
    requires DistinctNames(formals)
    ensures forall k :: k in Positional(formals, args) <==> Declares(formals[..|args|], k)
    ensures forall i :: 0 <= i < |args| ==>
              formals[i].name in Positional(formals, args) && Positional(formals, args)[formals[i].name] == args[i]
    decreases |args|
  {
    if |args| > 0 {
      var rest := formals[1..];
      DistinctTail(formals);
      PositionalSpec(rest, args[1..]);
      var p := Positional(formals, args);
      var q := Positional(rest, args[1..]);
      assert p == map[formals[0].name := args[0]] + q;
      assert formals[..|args|][1..] == rest[..|args[1..]|];
      forall k
        ensures k in p <==> Declares(formals[..|args|], k)
      {
        DeclaresCons(formals[..|args|], k);
      }
      forall i | 0 <= i < |args|
        ensures formals[i].name in p && p[formals[i].name] == args[i]
      {
        if i > 0 {
          assert formals[i] == rest[i - 1];
          assert formals[i].name != formals[0].name;
        }
      }
    } else {
      forall k
        ensures !Declares(formals[..0], k)
      {
      }
    }
  }

  /** What `apply_defaults` adds: a default for every parameter still unbound. */
  lemma {:induction false} ApplyDefaultsSpec<V>(formals: seq<Formal<V>>, arguments: map<string, V>)
    requires DistinctNames(formals)
    ensures forall k :: k in arguments ==> k in ApplyDefaults(formals, arguments) && ApplyDefaults(formals, arguments)[k] == arguments[k]
    ensures forall j :: 0 <= j < |formals| && formals[j].name !in arguments && formals[j].default.Some? ==>
              formals[j].name in ApplyDefaults(formals, arguments) && ApplyDefaults(formals, arguments)[formals[j].name] == formals[j].default.value
    ensures forall k :: k in ApplyDefaults(formals, arguments) ==> k in arguments || Declares(formals, k)
    decreases |formals|
  {
    if |formals| > 0 {
      var f, rest := formals[0], formals[1..];
      DistinctTail(formals);
      var filled := if f.name !in arguments && f.default.Some? then arguments[f.name := f.default.value] else arguments;
      ApplyDefaultsSpec(rest, filled);
      var r := ApplyDefaults(formals, arguments);
      assert r == ApplyDefaults(rest, filled);
      forall j | 0 <= j < |formals| && formals[j].name !in arguments && formals[j].default.Some?
        ensures formals[j].name in r && r[formals[j].name] == formals[j].default.value
      {
        if j > 0 {
          assert formals[j] == rest[j - 1];
          assert formals[j].name != f.name;
        }
      }
      forall k | k in r
        ensures k in arguments || Declares(formals, k)
      {
        DeclaresCons(formals, k);
      }
    }
  }

  /** Partial binding (`bind_partial`) succeeds exactly when no positional
      overflows, no parameter is given twice and every keyword names a
      parameter; it binds the positionals in order and the keywords as given. */
  lemma BindPartialSpec<V>(formals: seq<Formal<V>>, args: seq<V>, kwargs: map<string, V>)
    requires DistinctNames(formals)
    ensures BindPartial(formals, args, kwargs).Ok? <==> Bindable(formals, args, kwargs, true)
    ensures BindPartial(formals, args, kwargs).Err? ==> BindPartial(formals, args, kwargs).error == BindFailure
    ensures BindPartial(formals, args, kwargs).Ok? ==>
      var bound := BindPartial(formals, args, kwargs).value;
      && (forall k :: k in bound <==> k in kwargs || Declares(formals[..|args|], k))
      && (forall i :: 0 <= i < |args| ==> bound[formals[i].name] == args[i])
      && (forall k :: k in kwargs ==> bound[k] == kwargs[k])
  {
    BindPositionalSpec(formals, args, kwargs, true, map[]);
    if Bindable(formals, args, kwargs, true) {
      PositionalSpec(formals, args);
      assert map[] + Positional(formals, args) == Positional(formals, args);
    }
  }

  /** After a successful full bind, each parameter holds its positional
      argument, else its keyword argument, else its default. */
  lemma BindFullValues<V>(formals: seq<Formal<V>>, args: seq<V>, kwargs: map<string, V>)
    requires DistinctNames(formals) && Bindable(formals, args, kwargs, false)
    ensures var bound := ApplyDefaults(formals, Positional(formals, args) + kwargs);
      forall j :: 0 <= j < |formals| ==>
        && formals[j].name in bound
        && bound[formals[j].name]
           == if j < |args| then args[j]
              else if formals[j].name in kwargs then kwargs[formals[j].name]
              else formals[j].default.value
  {
    PositionalSpec(formals, args);
    var m := Positional(formals, args) + kwargs;
    ApplyDefaultsSpec(formals, m);
    var bound := ApplyDefaults(formals, m);
    var tail := formals[|args|..];
    forall j | 0 <= j < |formals|
      ensures formals[j].name in bound
      ensures bound[formals[j].name]
           == if j < |args| then args[j]
              else if formals[j].name in kwargs then kwargs[formals[j].name]
              else formals[j].default.value
    {
      if j < |args| {
        assert formals[j].name !in kwargs;
        assert formals[..|args|][j] == formals[j];
        assert Declares(formals[..|args|], formals[j].name);
      } else if formals[j].name !in kwargs {
        assert tail[j - |args|] == formals[j];
        assert formals[j].default.Some?;
        forall i | 0 <= i < |args|
          ensures formals[..|args|][i].name != formals[j].name
        {
          assert formals[..|args|][i] == formals[i];
        }
      }
    }
  }

  /** After a successful full bind, only declared parameters are bound. */
  lemma BindFullKeys<V>(formals: seq<Formal<V>>, args: seq<V>, kwargs: map<string, V>)
    requires DistinctNames(formals) && Bindable(formals, args, kwargs, false)
    ensures forall k :: k in ApplyDefaults(formals, Positional(formals, args) + kwargs) ==> Declares(formals, k)
  {
    PositionalSpec(formals, args);
    var m := Positional(formals, args) + kwargs;
    ApplyDefaultsSpec(formals, m);
    var tail := formals[|args|..];
    forall k | k in ApplyDefaults(formals, m)
      ensures Declares(formals, k)
    {
      if k in kwargs {
        var t :| 0 <= t < |tail| && tail[t].name == k;
        assert formals[|args| + t].name == k;
      } else if k in m {
        var t :| 0 <= t < |args| && formals[..|args|][t].name == k;
        assert formals[t].name == k;
      }
    }
  }

  /** Full binding (`bind` then `apply_defaults`) succeeds exactly when, in
      addition, every parameter without a default receives an argument; then
      every parameter is bound, by position, by keyword or by its default. */
  lemma BindFullSpec<V>(formals: seq<Formal<V>>, args: seq<V>, kwargs: map<string, V>)
    requires DistinctNames(formals)
    ensures BindFull(formals, args, kwargs).Ok? <==> Bindable(formals, args, kwargs, false)
    ensures BindFull(formals, args, kwargs).Err? ==> BindFull(formals, args, kwargs).error == BindFailure
    ensures BindFull(formals, args, kwargs).Ok? ==>
      var bound := BindFull(formals, args, kwargs).value;
      && (forall k :: k in bound <==> Declares(formals, k))
      && (forall j :: 0 <= j < |formals| ==>
            bound[formals[j].name]
            == if j < |args| then args[j]
               else if formals[j].name in kwargs then kwargs[formals[j].name]
               else formals[j].default.value)
  {
    BindPositionalSpec(formals, args, kwargs, false, map[]);
    if Bindable(formals, args, kwargs, false) {
      assert map[] + Positional(formals, args) == Positional(formals, args);
      BindFullValues(formals, args, kwargs);
      BindFullKeys(formals, args, kwargs);
      var bound := ApplyDefaults(formals, Positional(formals, args) + kwargs);
      assert BindFull(formals, args, kwargs) == Ok(bound);
      forall k | Declares(formals, k)
        ensures k in bound
      {
        var j :| 0 <= j < |formals| && formals[j].name == k;
      }
    }
  }
}
