/** The pipeline the backend fills: a growing list of command records. A Lua script
    call (`script_call`) is an opaque record holding the script name and its arguments.
    `redis_execution` runs a pipeline and keeps the results of one type. */
module Commands {
  import opened Wrappers

  /** A sort score: `MIN_FLOAT`, the sentinel for unordered or unset values, or the
      opaque result of the ordering field's `scorefun`. */
  datatype Score = MinFloat | ScoreOf(value: string)

  /** A command argument as the client receives it. */
  datatype Arg = Str(s: string) | Num(n: int) | ScoreArg(score: Score)

  datatype Command =
    | Call(name: string, args: seq<Arg>)
    | Script(script: string, args: seq<Arg>)

  function Strs(ss: seq<string>): (r: seq<Arg>)
    ensures |r| == |ss| && forall i :: 0 <= i < |ss| ==> r[i] == Str(ss[i])
  {
    if ss == [] then [] else [Str(ss[0])] + Strs(ss[1..])
  }

  /** The values a pipeline's execution returns, one per command: results built by a
      command's callback, raised exceptions, and plain replies. */
  datatype ExecValue =
    | QueryResult(key: string, count: int)
    | SessionResult(tag: string)
    | Raised(error: string)
    | Plain(reply: string)

  /** The `result_type` given to `redis_execution`. */
  datatype ResultType = QueryResults | SessionResults

  predicate OfType(v: ExecValue, t: ResultType) {
    match t
    case QueryResults => v.QueryResult?
    case SessionResults => v.SessionResult?
  }

  datatype ExecError = IndexError | Exception(error: string)

  /** The results of type `t`, in order. */
  function Keep(results: seq<ExecValue>, t: ResultType): (r: seq<ExecValue>)
    ensures |r| <= |results|
    ensures forall v :: v in r <==> v in results && OfType(v, t)
  {
    if results == [] then []
    else (if OfType(results[0], t) then [results[0]] else []) + Keep(results[1..], t)
  }

  /** `redis_execution(pipe, result_type)`: drops the first queued command (the
      transaction's opening, an `IndexError` on an empty stack) before executing,
      raises the first exception among the results, and otherwise keeps the results
      of type `t`. `results` stands for what `pipe.execute()` returns. */
  function RedisExecution(stack: seq<Command>, t: ResultType, results: seq<ExecValue>)
    : (r: Result<(seq<Command>, seq<ExecValue>), ExecError>)
    ensures stack == [] ==> r == Err(IndexError)
    ensures r.Ok? <==> stack != [] && forall i :: 0 <= i < |results| ==> !results[i].Raised?
    ensures r.Ok? ==> r.value.0 == stack[1..] && r.value.1 == Keep(results, t)
    ensures r.Err? && stack != [] ==>
              r.error.Exception? &&
              exists i :: 0 <= i < |results| && results[i] == Raised(r.error.error) &&
                          forall j :: 0 <= j < i ==> !results[j].Raised?
  {
    if stack == [] then Err(IndexError)
    else
      match FirstRaised(results, 0)
      case Some(i) => Err(Exception(results[i].error))
      case None => Ok((stack[1..], Keep(results, t)))
  }

  /** The index of the first raised exception at or after `i`. */
  function FirstRaised(results: seq<ExecValue>, i: nat): (r: Option<nat>)
    requires i <= |results|
    ensures r.Some? ==> i <= r.value < |results| && results[r.value].Raised? &&
                        forall j :: i <= j < r.value ==> !results[j].Raised?
    ensures r.None? ==> forall j :: i <= j < |results| ==> !results[j].Raised?
    decreases |results| - i
  {
    if i == |results| then None
    else if results[i].Raised? then Some(i)
    else FirstRaised(results, i + 1)
  }

  /** Kept results are exactly the results of the type, counted with multiplicity. */
  lemma {:induction false} KeepCounts(results: seq<ExecValue>, t: ResultType, v: ExecValue)
    ensures multiset(Keep(results, t))[v] == if OfType(v, t) then multiset(results)[v] else 0
  {
    if results != [] {
      KeepCounts(results[1..], t, v);
      KeepCons(results, t);
      MultisetCons(results);
    }
  }

  /** Filtering a concatenation filters each part and keeps them in order; with
      `KeepSingle` this pins `Keep` down as the order-preserving filter. */
  lemma {:induction false} KeepConcat(a: seq<ExecValue>, b: seq<ExecValue>, t: ResultType)
    ensures Keep(a + b, t) == Keep(a, t) + Keep(b, t)
  {
    if a != [] {
      assert (a + b)[0] == a[0] && (a + b)[1..] == a[1..] + b;
      KeepConcat(a[1..], b, t);
      var head := if OfType(a[0], t) then [a[0]] else [];
      KeepStep(a + b, t);
      KeepStep(a, t);
      assert head + (Keep(a[1..], t) + Keep(b, t)) == (head + Keep(a[1..], t)) + Keep(b, t);
    } else {
      assert a + b == b;
    }
  }

  lemma KeepStep(results: seq<ExecValue>, t: ResultType)
    requires results != []
    ensures Keep(results, t) == (if OfType(results[0], t) then [results[0]] else []) + Keep(results[1..], t)
  {
  }

  /** A single value is kept exactly when it is of the wanted type. */
  lemma KeepSingle(v: ExecValue, t: ResultType)
    ensures Keep([v], t) == if OfType(v, t) then [v] else []
  {
    assert [v][1..] == [];
  }

  lemma KeepCons(results: seq<ExecValue>, t: ResultType)
    requires results != []
    ensures multiset(Keep(results, t)) ==
            (if OfType(results[0], t) then multiset{results[0]} else multiset{}) + multiset(Keep(results[1..], t))
  {
    var head := if OfType(results[0], t) then [results[0]] else [];
    assert Keep(results, t) == head + Keep(results[1..], t);
  }


  lemma MultisetCons<T>(xs: seq<T>)
    requires xs != []
    ensures multiset(xs) == multiset{xs[0]} + multiset(xs[1..])
  {
    assert xs == [xs[0]] + xs[1..];
  }
}
