/** Generated stubs: a call arrives as a method name and argument bytes and falls through the interface chain. */
module Stub {
  import opened Bytes
  import opened Codec
  import opened Wrappers

  datatype Method = Method(name: Text, args: seq<Type>, result: Type)

  /** An interface with its own methods above its base; every chain ends in `CoreObject`. */
  datatype Interface = CoreObject | Interface(methods: seq<Method>, base: Interface)

  datatype Outcome = Returned(value: Value) | Raised(what: Text)

  /** What the hosted objects do: store before, object, method, arguments; store after, outcome. */
  type Run<!S> = (S, nat, Method, seq<Value>) -> (S, Outcome)

  /** The if/else chain over one interface's own methods. */
  function OwnMethod(methods: seq<Method>, name: Text): Option<Method> {
    if methods == [] then None
    else if methods[0].name == name then Some(methods[0])
    else OwnMethod(methods[1..], name)
  }

  function Lookup(face: Interface, name: Text): Option<Method> {
    match face
    case CoreObject => None
    case Interface(methods, base) =>
      var own := OwnMethod(methods, name);
      if own.Some? then own else Lookup(base, name)
  }

  function UnknownMethod(name: Text): Text {
    Ascii("invoking unknown method ") + name
  }

  /** A void method reports Undefined whatever the object handed back. */
  function Finish(m: Method, out: Outcome): Outcome {
    if out.Returned? && m.result == UndefinedType then Returned(Undefined) else out
  }

  function Perform<S>(run: Run<S>, target: nat, store: S, m: Method, args: seq<Value>): (S, Outcome) {
    var (after, out) := run(store, target, m, args);
    (after, Finish(m, out))
  }

  /** The stub: arguments are decoded from bytes. */
  function Invoke<S>(run: Run<S>, target: nat, face: Interface, store: S, name: Text, argsData: seq<byte>)
      : (S, Outcome)
  {
    match face
    case CoreObject => (store, Raised(UnknownMethod(name)))
    case Interface(methods, base) =>
      match OwnMethod(methods, name)
      case None => Invoke(run, target, base, store, name, argsData)
      case Some(m) =>
        match ReadAll(m.args, argsData, 0)
        case ReadListFailed(what) => (store, Raised(what))
        case ReadList(args, _) => Perform(run, target, store, m, args)
  }

  /** The same call made in process, on values: no bytes are involved. */
  function Direct<S>(run: Run<S>, target: nat, face: Interface, store: S, name: Text, args: seq<Value>): (S, Outcome) {
    match Lookup(face, name)
    case None => (store, Raised(UnknownMethod(name)))
    case Some(m) =>
      match Match(m.args, args)
      case Mismatch(what) => (store, Raised(what))
      case Matched(taken) => Perform(run, target, store, m, taken)
  }

  /** The stub fed with the proxy's argument bytes does what the call on the values does. */
  lemma {:induction false} StubIsDirectCall<S>(
      run: Run<S>, target: nat, face: Interface, store: S, name: Text, args: seq<Value>)
    ensures Invoke(run, target, face, store, name, WriteAll(args)) == Direct(run, target, face, store, name, args)
    decreases face
  {
    match face
    case CoreObject =>
    case Interface(methods, base) =>
      match OwnMethod(methods, name)
      case None => StubIsDirectCall(run, target, base, store, name, args);
      case Some(m) =>
        assert [] + WriteAll(args) == WriteAll(args);
        ReadAllMatches(m.args, [], args);
  }

  /** A proxy that sends what the declaration asks for: the stub gets the same list and no byte is left. */
  lemma ArgumentsSurvive(args: seq<Value>)
    ensures ReadAll(TypesOf(args), WriteAll(args), 0) == ReadList(args, |WriteAll(args)|)
  {
    assert [] + WriteAll(args) == WriteAll(args);
    ReadAllMatches(TypesOf(args), [], args);
    MatchExact(args);
  }

  /** The methods of each interface of a chain, most derived first. */
  function Levels(face: Interface): seq<seq<Method>> {
    match face
    case CoreObject => []
    case Interface(methods, base) => [methods] + Levels(base)
  }

  predicate Declares(methods: seq<Method>, name: Text) {
    exists m :: m in methods && m.name == name
  }

  lemma {:induction false} OwnMethodFinds(methods: seq<Method>, name: Text)
    ensures OwnMethod(methods, name).Some? <==> Declares(methods, name)
    ensures OwnMethod(methods, name).Some? ==>
              OwnMethod(methods, name).value in methods && OwnMethod(methods, name).value.name == name
  {
    if methods != [] && methods[0].name != name {
      OwnMethodFinds(methods[1..], name);
      assert methods == [methods[0]] + methods[1..];
    }
  }

  /** Dispatch finds a method exactly when some interface of the chain declares the name, else "unknown method". */
  lemma {:induction false} UnknownExactlyWhenUndeclared<S>(
      run: Run<S>, target: nat, face: Interface, store: S, name: Text, args: seq<Value>)
    ensures Lookup(face, name).Some? <==> exists i :: 0 <= i < |Levels(face)| && Declares(Levels(face)[i], name)
    ensures Lookup(face, name).None? ==>
              Direct(run, target, face, store, name, args) == (store, Raised(UnknownMethod(name)))
    decreases face
  {
    match face
    case CoreObject =>
    case Interface(methods, base) =>
      OwnMethodFinds(methods, name);
      UnknownExactlyWhenUndeclared(run, target, base, store, name, args);
      assert Levels(face)[0] == methods;
      assert forall i :: 0 <= i < |Levels(base)| ==> Levels(face)[i + 1] == Levels(base)[i];
  }

  lemma {:induction false} FirstOwnWins(methods: seq<Method>, name: Text, j: nat)
    requires j < |methods| && methods[j].name == name && forall k :: 0 <= k < j ==> methods[k].name != name
    ensures OwnMethod(methods, name) == Some(methods[j])
  {
    if j > 0 {
      FirstOwnWins(methods[1..], name, j - 1);
    }
  }

  /** The method found is the first declaration at the most derived level that has one. */
  lemma {:induction false} MostDerivedWins(face: Interface, name: Text, i: nat, j: nat)
    requires i < |Levels(face)| && j < |Levels(face)[i]| && Levels(face)[i][j].name == name
    requires forall k :: 0 <= k < j ==> Levels(face)[i][k].name != name
    requires forall k :: 0 <= k < i ==> !Declares(Levels(face)[k], name)
    ensures Lookup(face, name) == Some(Levels(face)[i][j])
    decreases face
  {
    match face
    case CoreObject =>
    case Interface(methods, base) =>
      OwnMethodFinds(methods, name);
      assert Levels(face)[0] == methods;
      assert forall k :: 0 <= k < |Levels(base)| ==> Levels(face)[k + 1] == Levels(base)[k];
      if i > 0 {
        assert !Declares(methods, name);
        MostDerivedWins(base, name, i - 1, j);
      } else {
        FirstOwnWins(methods, name, j);
      }
  }

  /** What the caller gets of a method's outcome: a void method has no value to hand back. */
  predicate HandsBack(m: Method, out: Outcome, seen: Outcome) {
    seen == if m.result == UndefinedType && out.Returned? then Returned(Undefined) else out
  }

  /**
   * What the stub does with any argument bytes: it runs the declared method on the object with the arguments it reads,
   * and leaves the store alone when there is no such method or an argument cannot be read.
   */
  lemma {:induction false} InvokeRunsDeclared<S>(
      run: Run<S>, target: nat, face: Interface, store: S, name: Text, argsData: seq<byte>)
    ensures var found, (after, seen) := Lookup(face, name), Invoke(run, target, face, store, name, argsData);
            && (found.None? ==> after == store && seen == Raised(Ascii("invoking unknown method ") + name))
            && (found.Some? ==>
                  var m, read := found.value, ReadAll(found.value.args, argsData, 0);
                  && (read.ReadListFailed? ==> after == store && seen == Raised(read.reason))
                  && (read.ReadList? ==>
                        var (next, out) := run(store, target, m, read.values);
                        after == next && HandsBack(m, out, seen)))
    decreases face
  {
    match face
    case CoreObject =>
    case Interface(methods, base) =>
      if OwnMethod(methods, name).None? {
        InvokeRunsDeclared(run, target, base, store, name, argsData);
      }
  }

  /** The same of a call on values: the arguments the declaration asks for are passed on as they are. */
  lemma DirectRunsDeclared<S>(run: Run<S>, target: nat, face: Interface, store: S, name: Text, args: seq<Value>)
    ensures var found, (after, seen) := Lookup(face, name), Direct(run, target, face, store, name, args);
            && (found.None? ==> after == store && seen == Raised(Ascii("invoking unknown method ") + name))
            && (found.Some? ==>
                  var m := found.value;
                  && (StartsWith(args, m.args) ==>
                        var (next, out) := run(store, target, m, args[..|m.args|]);
                        after == next && HandsBack(m, out, seen))
                  && (forall i :: StopsAt(args, m.args, i) ==>
                        after == store && seen == Raised(if i == |args| then END_OF_DATA else BAD_TYPE)))
  {
    var found := Lookup(face, name);
    if found.Some? {
      var types := found.value.args;
      if StartsWith(args, types) {
        MatchTakes(types, args);
      }
      hide StartsWith, StopsAt, Match;
      forall i | StopsAt(args, types, i)
        ensures Match(types, args) == Mismatch(if i == |args| then END_OF_DATA else BAD_TYPE)
      {
        MatchStops(types, args, i);
      }
    }
  }

  /** Reads the arguments one `ReadSingleValue` after the other, as the generated branch does. */
  method ReadArguments(types: seq<Type>, argsData: seq<byte>) returns (r: ReadListResult)
    ensures r == ReadAll(types, argsData, 0)
  {
    var offset: nat, args: seq<Value> := 0, [];
    for i := 0 to |types|
      invariant offset <= |argsData|
      invariant ReadAll(types, argsData, 0) == PrependAll(args, ReadAll(types[i..], argsData, offset))
    {
      var one := ReadSingle(types[i], argsData, offset);
      if one.ReadFailed? {
        return ReadListFailed(one.what);
      }
      assert types[i..][1..] == types[i + 1..];
      PrependSnoc(args, one.value, ReadAll(types[i + 1..], argsData, one.next));
      offset, args := one.next, args + [one.value];
    }
    assert types[|types|..] == [] && args + [] == args;
    return ReadList(args, offset);
  }

  ghost function PrependAll(vs: seq<Value>, r: ReadListResult): ReadListResult {
    match r
    case ReadListFailed(what) => r
    case ReadList(ws, end) => ReadList(vs + ws, end)
  }

  lemma PrependSnoc(vs: seq<Value>, v: Value, r: ReadListResult)
    ensures PrependAll(vs, Prepend(v, r)) == PrependAll(vs + [v], r)
  {
    if r.ReadList? {
      assert vs + ([v] + r.values) == vs + [v] + r.values;
    }
  }

  /**
   * `__pbus__invoke`: decodes, calls, and appends the result to the caller's stream. A call that raises has
   * appended nothing.
   */
  method PbusInvoke<S>(run: Run<S>, target: nat, face: Interface, store: S, name: Text, argsData: seq<byte>,
                       resultStream: seq<byte>)
      returns (after: S, out: Outcome, stream: seq<byte>)
    ensures (after, out) == Invoke(run, target, face, store, name, argsData)
    ensures stream == match out case Returned(v) => resultStream + Write(v) case Raised(_) => resultStream
    decreases face
  {
    match face {
      case CoreObject =>
        return store, Raised(UnknownMethod(name)), resultStream;
      case Interface(methods, base) =>
        var i := 0;
        while i < |methods|
          invariant i <= |methods| && OwnMethod(methods, name) == OwnMethod(methods[i..], name)
        {
          if methods[i].name == name {
            var args := ReadArguments(methods[i].args, argsData);
            if args.ReadListFailed? {
              return store, Raised(args.reason), resultStream;
            }
            var called := Perform(run, target, store, methods[i], args.values);
            after, out := called.0, called.1;
            stream := if out.Returned? then resultStream + Write(out.value) else resultStream;
            return;
          }
          assert methods[i..][1..] == methods[i + 1..];
          i := i + 1;
        }
        after, out, stream := PbusInvoke(run, target, base, store, name, argsData, resultStream);
    }
  }
}
