/** Committing a session: `flat_indices`, the delete cascade `accumulate_delete`, and
    `execute_session`, which queues structure flushes, delete queries and
    `commit_session` scripts on one pipe and executes it with `redis_execution`. */
module Session {
  import opened Wrappers
  import opened Models
  import opened Keys
  import opened Commands
  import opened Mappings
  import opened Query
  import opened QueryArgs
  import opened Structures

  // ---------------------------------------------------------------------------------
  // flat_indices

  function Attnames(indices: seq<Index>): (r: seq<Arg>)
    ensures |r| == |indices| && forall i :: 0 <= i < |indices| ==> r[i] == Str(indices[i].attname)
  {
    if indices == [] then [] else [Str(indices[0].attname)] + Attnames(indices[1..])
  }

  function Flags(indices: seq<Index>): (r: seq<Arg>)
    ensures |r| == |indices| && forall i :: 0 <= i < |indices| ==> r[i] == Num(if indices[i].unique then 1 else 0)
  {
    if indices == [] then [] else [Num(if indices[0].unique then 1 else 0)] + Flags(indices[1..])
  }

  /** `flat_indices`: the indexed fields' attribute names, then as many 0/1 flags
      marking the unique ones. */
  function FlatIndices(meta: Meta): (r: seq<Arg>)
    ensures |r| == 2 * |meta.indices|
    ensures forall i :: 0 <= i < |meta.indices| ==>
              r[i] == Str(meta.indices[i].attname) &&
              r[|meta.indices| + i] == Num(if meta.indices[i].unique then 1 else 0)
  {
    Attnames(meta.indices) + Flags(meta.indices)
  }

  /** How the scripts read the list back: the first half names the fields, the second
      half flags them. */
  function UnflatIndices(args: seq<Arg>): Option<seq<Index>> {
    var n := |args| / 2;
    var names := args[..n];
    var flags := args[n..];
    if |args| % 2 == 0 &&
       forall i :: 0 <= i < n ==> names[i].Str? && flags[i].Num? && 0 <= flags[i].n <= 1
    then Some(seq(n, i requires 0 <= i < n && names[i].Str? && flags[i].Num? => Index(names[i].s, flags[i].n == 1)))
    else None
  }

  lemma IndicesRoundTrip(meta: Meta)
    ensures UnflatIndices(FlatIndices(meta)) == Some(meta.indices)
  {
    UnflatFlat(FlatIndices(meta), meta.indices);
  }

  /** Any list laid out as `flat_indices` lays it out reads back as those indices. */
  lemma UnflatFlat(args: seq<Arg>, indices: seq<Index>)
    requires |args| == 2 * |indices|
    requires forall i :: 0 <= i < |indices| ==>
               args[i] == Str(indices[i].attname) && args[|indices| + i] == Num(if indices[i].unique then 1 else 0)
    ensures UnflatIndices(args) == Some(indices)
  {
    var n := |indices|;
    assert |args| / 2 == n && |args| % 2 == 0;
    var names := args[..n];
    var flags := args[n..];
    assert forall i :: 0 <= i < n ==> names[i] == Str(indices[i].attname) && flags[i] == Num(if indices[i].unique then 1 else 0);
    assert UnflatIndices(args).Some?;
    var d := UnflatIndices(args).value;
    assert |d| == n;
    forall i | 0 <= i < n ensures d[i] == indices[i] {
      assert d[i] == Index(names[i].s, flags[i].n == 1);
    }
    assert d == indices;
  }

  // ---------------------------------------------------------------------------------
  // accumulate_delete

  /** The `delete_query` script for a model: model key, the query's key, the family,
      the number of indices, the flat indices, then the structure fields and their
      number. */
  function DeleteQueryCall(ns: string, meta: Meta, key: string): (c: Command)
    ensures c.Script? && c.script == "delete_query"
    ensures |c.args| == 5 + 2 * |meta.indices| + |meta.multifields|
    ensures c.args[..4] == [Str(ModelKey(ns, meta)), Str(key), Str(Family(meta)), Num(|meta.indices|)]
    ensures c.args[4..4 + 2 * |meta.indices|] == FlatIndices(meta)
    ensures c.args[4 + 2 * |meta.indices|..] == [Num(|meta.multifields|)] + Strs(meta.multifields)
  {
    var head := [Str(ModelKey(ns, meta)), Str(key), Str(Family(meta)), Num(|meta.indices|)];
    var flat, tail := FlatIndices(meta), [Num(|meta.multifields|)] + Strs(meta.multifields);
    var args := head + flat + tail;
    assert |flat| == 2 * |meta.indices| && |tail| == 1 + |meta.multifields|;
    assert args[..4] == head;
    assert args[4..4 + |flat|] == flat;
    assert args[4 + |flat|..] == tail;
    Script("delete_query", args)
  }

  /** The `add_recursive` script for a self relation through `attname`. */
  function AddRecursiveCall(ns: string, meta: Meta, key: string, attname: string): Command {
    Script("add_recursive", [Str(ModelKey(ns, meta)), Str(Family(meta)), Str(key), Str(attname)])
  }

  /** One `add_recursive` per self relation, in the order of `meta.related`. */
  function SelfRecursions(ns: string, meta: Meta, key: string, rels: seq<Rel>): (r: seq<Command>)
    ensures |r| == SelfCount(rels)
    ensures forall k :: 0 <= k < |r| ==> r[k].Script? && r[k].script == "add_recursive"
  {
    if rels == [] then []
    else (if rels[0].SelfRel? then [AddRecursiveCall(ns, meta, key, rels[0].attname)] else []) +
         SelfRecursions(ns, meta, key, rels[1..])
  }

  function SelfCount(rels: seq<Rel>): nat {
    if rels == [] then 0 else (if rels[0].SelfRel? then 1 else 0) + SelfCount(rels[1..])
  }

  /** The query a related manager derives from `query`: the related model's instances
      whose `attname` is in the query. */
  function RelatedQuery(q: QueryElem, attname: string, target: Meta): QueryElem {
    QueryElem(target, KSet, attname, false, "in", [Sub(q)])
  }

  lemma RelatedQueryWellFormed(q: QueryElem, attname: string, target: Meta)
    ensures WellFormed(q) ==> WellFormed(RelatedQuery(q, attname, target))
  {
    var rq := RelatedQuery(q, attname, target);
    assert rq.children[0] == Sub(q);
  }

  /** A pipe being filled and the next id of the unique-id counter. */
  datatype Pending = Pending(pipe: seq<Command>, next: nat)

  /** `accumulate_delete`: nothing without a query; otherwise the self relations'
      `add_recursive` scripts, then each other relation's derived query compiled into
      the same pipe and its own cascade, and last this model's `delete_query`. */
  function AccumulateDelete(ns: string, bq: Option<(QueryElem, string)>, pipe: seq<Command>, next: nat)
    : (r: Result<Pending, QueryError>)
    ensures bq.None? ==> r == Ok(Pending(pipe, next))
    ensures bq.Some? ==> r == DeleteCascade(ns, bq.value.0, bq.value.1, pipe, next)
  {
    if bq.None? then Ok(Pending(pipe, next)) else DeleteCascade(ns, bq.value.0, bq.value.1, pipe, next)
  }

  function DeleteCascade(ns: string, q: QueryElem, key: string, pipe: seq<Command>, next: nat)
    : (r: Result<Pending, QueryError>)
    ensures WellFormed(q) ==> r.Ok?
    ensures r.Ok? ==> |r.value.pipe| > |pipe| && r.value.pipe[|r.value.pipe| - 1] == DeleteQueryCall(ns, q.meta, key)
    ensures r.Ok? ==> pipe + SelfRecursions(ns, q.meta, key, q.meta.related) <= r.value.pipe[..|r.value.pipe| - 1]
    ensures r.Ok? ==> pipe <= r.value.pipe
    decreases q.meta, 1
  {
    var selfs := SelfRecursions(ns, q.meta, key, q.meta.related);
    match RelatedDeletes(ns, q, 0, pipe + selfs, next)
    case Err(e) => Err(e)
    case Ok(p) =>
      var r := p.pipe + [DeleteQueryCall(ns, q.meta, key)];
      assert r[..|r| - 1] == p.pipe;
      Ok(Pending(r, p.next))
  }

  /** The loop over the relations that are not self relations, from the `i`-th on. */
  function RelatedDeletes(ns: string, q: QueryElem, i: nat, pipe: seq<Command>, next: nat)
    : (r: Result<Pending, QueryError>)
    requires i <= |q.meta.related|
    ensures WellFormed(q) ==> r.Ok?
    ensures r.Ok? ==> pipe <= r.value.pipe
    decreases q.meta, 0, |q.meta.related| - i
  {
    if i == |q.meta.related| then Ok(Pending(pipe, next))
    else
      match q.meta.related[i]
      case SelfRel(_) => RelatedDeletes(ns, q, i + 1, pipe, next)
      case CrossRel(attname, target) =>
        assert q.meta.related[i] in q.meta.related;
        var rq := RelatedQuery(q, attname, target);
        RelatedQueryWellFormed(q, attname, target);
        match Build(ns, rq, pipe, next)
        case Err(e) => Err(e)
        case Ok(b) =>
          match DeleteCascade(ns, rq, b.key, b.pipe, b.next)
          case Err(e) => Err(e)
          case Ok(p) => RelatedDeletes(ns, q, i + 1, p.pipe, p.next)
  }

  /** The number of `delete_query` scripts among the commands. */
  function DeleteScripts(cmds: seq<Command>): nat {
    if cmds == [] then 0
    else (if cmds[0].Script? && cmds[0].script == "delete_query" then 1 else 0) + DeleteScripts(cmds[1..])
  }

  /** One delete per model of the relation tree below `meta`, this model included. */
  function DeleteCount(meta: Meta): nat
    decreases meta, 1
  {
    1 + CrossCount(meta, 0)
  }

  function CrossCount(meta: Meta, i: nat): nat
    requires i <= |meta.related|
    decreases meta, 0, |meta.related| - i
  {
    if i == |meta.related| then 0
    else
      assert meta.related[i] in meta.related;
      (match meta.related[i] case SelfRel(_) => 0 case CrossRel(_, target) => DeleteCount(target)) + CrossCount(meta, i + 1)
  }

  lemma {:induction false} DeleteScriptsAppend(a: seq<Command>, b: seq<Command>)
    ensures DeleteScripts(a + b) == DeleteScripts(a) + DeleteScripts(b)
  {
    if a != [] {
      assert a + b != [] && (a + b)[0] == a[0] && (a + b)[1..] == a[1..] + b;
      DeleteScriptsAppend(a[1..], b);
    } else {
      assert a + b == b;
    }
  }

  lemma {:induction false} NoDeleteScripts(cmds: seq<Command>)
    requires forall k :: 0 <= k < |cmds| ==> !(cmds[k].Script? && cmds[k].script == "delete_query")
    ensures DeleteScripts(cmds) == 0
  {
    if cmds != [] {
      NoDeleteScripts(cmds[1..]);
    }
  }

  /** Splits the emitted commands of a pipe that grew in two steps. */
  lemma DeletesBetween(p0: seq<Command>, p1: seq<Command>, p2: seq<Command>)
    requires p0 <= p1 <= p2
    ensures DeleteScripts(p2[|p0|..]) == DeleteScripts(p1[|p0|..]) + DeleteScripts(p2[|p1|..])
  {
    assert p2[|p0|..] == p1[|p0|..] + p2[|p1|..];
    DeleteScriptsAppend(p1[|p0|..], p2[|p1|..]);
  }

  /** The cascade queues exactly one `delete_query` per model of the relation tree,
      each related model's before this model's own, which comes last. */
  lemma {:induction false} CascadeDeletes(ns: string, q: QueryElem, key: string, pipe: seq<Command>, next: nat)
    requires DeleteCascade(ns, q, key, pipe, next).Ok?
    ensures var r := DeleteCascade(ns, q, key, pipe, next).value;
            DeleteScripts(r.pipe[|pipe|..]) == DeleteCount(q.meta)
    decreases q.meta, 1
  {
    var selfs := SelfRecursions(ns, q.meta, key, q.meta.related);
    var p := RelatedDeletes(ns, q, 0, pipe + selfs, next).value;
    var r := DeleteCascade(ns, q, key, pipe, next).value;
    RelatedDeletesCount(ns, q, 0, pipe + selfs, next);
    NoDeleteScripts(selfs);
    assert (pipe + selfs)[|pipe|..] == selfs;
    DeletesBetween(pipe, pipe + selfs, p.pipe);
    var last := DeleteQueryCall(ns, q.meta, key);
    assert r.pipe == p.pipe + [last];
    DeletesBetween(pipe, p.pipe, r.pipe);
    assert r.pipe[|p.pipe|..] == [last];
    assert DeleteScripts([last]) == 1 by {
      assert [last][1..] == [];
    }
  }

  lemma {:induction false} RelatedDeletesCount(ns: string, q: QueryElem, i: nat, pipe: seq<Command>, next: nat)
    requires i <= |q.meta.related| && RelatedDeletes(ns, q, i, pipe, next).Ok?
    ensures DeleteScripts(RelatedDeletes(ns, q, i, pipe, next).value.pipe[|pipe|..]) == CrossCount(q.meta, i)
    decreases q.meta, 0, |q.meta.related| - i
  {
    if i == |q.meta.related| {
      var r := RelatedDeletes(ns, q, i, pipe, next).value;
      assert r.pipe[|pipe|..] == [];
    } else {
      match q.meta.related[i]
      case SelfRel(_) =>
        SelfStep(ns, q, i, pipe, next);
        RelatedDeletesCount(ns, q, i + 1, pipe, next);
      case CrossRel(attname, target) =>
        CrossDeletesCount(ns, q, i, pipe, next, attname, target);
    }
  }

  lemma {:induction false} CrossDeletesCount(ns: string, q: QueryElem, i: nat, pipe: seq<Command>, next: nat,
                                              attname: string, target: Meta)
    requires i < |q.meta.related| && q.meta.related[i] == CrossRel(attname, target)
    requires RelatedDeletes(ns, q, i, pipe, next).Ok?
    ensures DeleteScripts(RelatedDeletes(ns, q, i, pipe, next).value.pipe[|pipe|..]) == CrossCount(q.meta, i)
    decreases q.meta, 0, |q.meta.related| - i, 1
  {
    CrossStep(ns, q, i, pipe, next, attname, target);
    var rq := RelatedQuery(q, attname, target);
    var b := Build(ns, rq, pipe, next).value;
    var c := DeleteCascade(ns, rq, b.key, b.pipe, b.next).value;
    CrossParts(ns, q, i, attname, target, pipe, next, b, c);
  }

  /** The deletes of one cross relation and of the relations after it, given the
      related query's build and cascade. */
  lemma {:induction false} CrossParts(ns: string, q: QueryElem, i: nat, attname: string, target: Meta,
                                       pipe: seq<Command>, next: nat, b: Built, c: Pending)
    requires i < |q.meta.related| && q.meta.related[i] == CrossRel(attname, target)
    requires Build(ns, RelatedQuery(q, attname, target), pipe, next) == Ok(b)
    requires DeleteCascade(ns, RelatedQuery(q, attname, target), b.key, b.pipe, b.next) == Ok(c)
    requires RelatedDeletes(ns, q, i + 1, c.pipe, c.next).Ok?
    ensures DeleteScripts(RelatedDeletes(ns, q, i + 1, c.pipe, c.next).value.pipe[|pipe|..]) ==
              DeleteCount(target) + CrossCount(q.meta, i + 1)
    decreases q.meta, 0, |q.meta.related| - i, 0
  {
    assert q.meta.related[i] in q.meta.related;
    var rq := RelatedQuery(q, attname, target);
    var r := RelatedDeletes(ns, q, i + 1, c.pipe, c.next).value;
    BuildNoDeletes(ns, rq, pipe, next, b);
    CascadeDeletes(ns, rq, b.key, b.pipe, b.next);
    RelatedDeletesCount(ns, q, i + 1, c.pipe, c.next);
    DeletesThree(pipe, b.pipe, c.pipe, r.pipe);
  }

  lemma BuildNoDeletes(ns: string, q: QueryElem, pipe: seq<Command>, next: nat, b: Built)
    requires Build(ns, q, pipe, next) == Ok(b)
    ensures pipe <= b.pipe && DeleteScripts(b.pipe[|pipe|..]) == 0
  {
    BuildCompiles(ns, q, pipe, next);
    NoDeleteScripts(b.pipe[|pipe|..]);
  }

  /** One cross relation: build the related query, cascade into it, then go on with the
      next relation from where the cascade left the pipe. */
  lemma CrossStep(ns: string, q: QueryElem, i: nat, pipe: seq<Command>, next: nat, attname: string, target: Meta)
    requires i < |q.meta.related| && q.meta.related[i] == CrossRel(attname, target)
    requires RelatedDeletes(ns, q, i, pipe, next).Ok?
    ensures var rq := RelatedQuery(q, attname, target);
            Build(ns, rq, pipe, next).Ok? &&
            var b := Build(ns, rq, pipe, next).value;
            DeleteCascade(ns, rq, b.key, b.pipe, b.next).Ok? &&
            var c := DeleteCascade(ns, rq, b.key, b.pipe, b.next).value;
            RelatedDeletes(ns, q, i, pipe, next) == RelatedDeletes(ns, q, i + 1, c.pipe, c.next) &&
            CrossCount(q.meta, i) == DeleteCount(target) + CrossCount(q.meta, i + 1)
  {
  }

  lemma DeletesThree(p0: seq<Command>, p1: seq<Command>, p2: seq<Command>, p3: seq<Command>)
    requires p0 <= p1 <= p2 <= p3
    ensures DeleteScripts(p3[|p0|..]) ==
              DeleteScripts(p1[|p0|..]) + DeleteScripts(p2[|p1|..]) + DeleteScripts(p3[|p2|..])
  {
    DeletesBetween(p0, p1, p2);
    DeletesBetween(p0, p2, p3);
  }

  /** `_build` on a pipe appends only compiler commands. */
  lemma BuildCompiles(ns: string, q: QueryElem, pipe: seq<Command>, next: nat)
    requires Build(ns, q, pipe, next).Ok?
    ensures var b := Build(ns, q, pipe, next).value;
            pipe <= b.pipe &&
            forall k :: 0 <= k < |b.pipe[|pipe|..]| ==> CompileCommand(b.pipe[|pipe|..][k])
  {
    var b := Build(ns, q, pipe, next).value;
    var a := Accumulate(ns, q, pipe, next).value;
    assert b.pipe == a.pipe;
    AccumulateCompiles(ns, q, pipe, next);
    var emitted := b.pipe[|pipe|..];
    forall k | 0 <= k < |emitted| ensures CompileCommand(emitted[k]) {
      assert emitted[k] == b.pipe[|pipe| + k];
    }
  }

  // ---------------------------------------------------------------------------------
  // execute_session

  /** An instance of a session: whether it validates (and its errors otherwise),
      whether it is already persistent, its id, the score of its ordering field's
      value when it has one, and its cleaned field data. */
  datatype Instance = Instance(
    valid: bool,
    errors: string,
    persistent: bool,
    id: Option<string>,
    sortScore: Option<Score>,
    data: seq<(string, string)>)

  /** A unit of the session: the instances of a structure model, or those of an object
      model with the query of instances to delete. */
  datatype Unit =
    | StructureUnit(structures: seq<Structure>)
    | ObjectUnit(meta: Meta, deleteQuery: Option<QueryElem>, instances: seq<Instance>)

  datatype SessionError =
    | FieldValueError(errors: string)
    | StructureError(raised: string)
    | CompileError(queryError: QueryError)
    | ExecutionError(execError: ExecError)

  /** The pipe, the unique-id counter and `lua_data`, which every unit extends. */
  datatype SessionState = SessionState(pipe: seq<Command>, next: nat, lua: seq<Arg>)

  /** The score sent for an instance: the sentinel unless the model is ordered and the
      instance has a value for the ordering field. */
  function RowScore(meta: Meta, inst: Instance): (s: Score)
    ensures s != MinFloat ==> meta.ordering.Some? && inst.sortScore == Some(s)
  {
    if meta.ordering.Some? && inst.sortScore.Some? then inst.sortScore.value else MinFloat
  }

  /** `instance.id or ''`. */
  function IdText(id: Option<string>): string {
    if id.Some? then id.value else ""
  }

  /** The row of an instance: `c` when persistent and `a` otherwise, the id, the score,
      the length of the flat data and the flat data. */
  function Row(meta: Meta, inst: Instance): (r: seq<Arg>)
    ensures |r| >= 4 && r[3] == Num(|r| - 4)
  {
    [Str(if inst.persistent then "c" else "a"), Str(IdText(inst.id)), ScoreArg(RowScore(meta, inst)),
     Num(2 * |inst.data|)] + Strs(FlatMapping(inst.data))
  }

  /** The rows of a unit's instances, or `FieldValueError` with the errors of the first
      instance that does not validate. */
  function Rows(meta: Meta, insts: seq<Instance>): (r: Result<seq<Arg>, SessionError>)
    ensures r.Ok? <==> forall k :: 0 <= k < |insts| ==> insts[k].valid
    ensures r.Err? ==> exists k :: 0 <= k < |insts| && !insts[k].valid && r.error == FieldValueError(insts[k].errors) &&
                                   forall j :: 0 <= j < k ==> insts[j].valid
  {
    if insts == [] then Ok([])
    else if !insts[0].valid then Err(FieldValueError(insts[0].errors))
    else
      match Rows(meta, insts[1..])
      case Err(e) => Err(e)
      case Ok(rest) => Ok(Row(meta, insts[0]) + rest)
  }

  /** The header of a unit: model key, family, number of instances, number of indices,
      and the flat indices. */
  function UnitHeader(ns: string, meta: Meta, n: nat): (r: seq<Arg>)
    ensures |r| == 4 + 2 * |meta.indices|
    ensures r[2] == Num(n) && r[3] == Num(|meta.indices|)
    ensures UnflatIndices(r[4..]) == Some(meta.indices)
  {
    var r := [Str(ModelKey(ns, meta)), Str(Family(meta)), Num(n), Num(|meta.indices|)] + FlatIndices(meta);
    assert r[4..] == FlatIndices(meta);
    IndicesRoundTrip(meta);
    r
  }

  /** The delete query of a unit compiled into the pipe, then its cascade. */
  function DeleteStep(ns: string, dq: Option<QueryElem>, pipe: seq<Command>, next: nat): (r: Result<Pending, QueryError>)
    ensures dq.None? ==> r == Ok(Pending(pipe, next))
    ensures dq.Some? && WellFormed(dq.value) ==> r.Ok?
    ensures r.Ok? ==> pipe <= r.value.pipe
  {
    if dq.None? then AccumulateDelete(ns, None, pipe, next)
    else
      match Build(ns, dq.value, pipe, next)
      case Err(e) => Err(e)
      case Ok(b) => AccumulateDelete(ns, Some((dq.value, b.key)), b.pipe, b.next)
  }

  /** One iteration of `execute_session`'s loop. A structure unit flushes its
      structures. An object unit queues its delete cascade and, when it has instances,
      extends `lua_data` with its header and rows and queues `commit_session` with all
      of `lua_data`: the list is never reset between units. */
  function UnitStep(ns: string, u: Unit, st: SessionState): (r: Result<SessionState, SessionError>)
    ensures r.Ok? ==> st.pipe <= r.value.pipe && st.lua <= r.value.lua
    ensures r.Ok? && u.ObjectUnit? ==> forall k :: 0 <= k < |u.instances| ==> u.instances[k].valid
    ensures r.Err? ==> !r.error.ExecutionError?
  {
    match u
    case StructureUnit(structures) =>
      var f := FlushAll(structures);
      if f.raised.Some? then Err(StructureError(f.raised.value))
      else Ok(SessionState(st.pipe + f.commands, st.next, st.lua))
    case ObjectUnit(meta, dq, insts) =>
      match DeleteStep(ns, dq, st.pipe, st.next)
      case Err(e) => Err(CompileError(e))
      case Ok(p) =>
        if insts == [] then Ok(SessionState(p.pipe, p.next, st.lua))
        else
          match Rows(meta, insts)
          case Err(e) => Err(e)
          case Ok(rows) =>
            var lua := st.lua + UnitHeader(ns, meta, |insts|) + rows;
            Ok(SessionState(p.pipe + [Script("commit_session", lua)], p.next, lua))
  }

  /** Every instance of every object unit validates. */
  predicate AllValid(units: seq<Unit>) {
    forall j, k :: 0 <= j < |units| && units[j].ObjectUnit? && 0 <= k < |units[j].instances| ==>
      units[j].instances[k].valid
  }

  /** The loop over the session's units. */
  function SessionUnits(ns: string, units: seq<Unit>, st: SessionState): (r: Result<SessionState, SessionError>)
    ensures r.Ok? ==> st.pipe <= r.value.pipe && st.lua <= r.value.lua
    ensures r.Ok? ==> AllValid(units)
    ensures r.Err? ==> !r.error.ExecutionError?
  {
    if units == [] then Ok(st)
    else
      match UnitStep(ns, units[0], st)
      case Err(e) => Err(e)
      case Ok(st1) =>
        var r := SessionUnits(ns, units[1..], st1);
        assert r.Ok? ==> AllValid(units) by {
          if r.Ok? {
            forall j, k | 0 <= j < |units| && units[j].ObjectUnit? && 0 <= k < |units[j].instances|
              ensures units[j].instances[k].valid
            {
              if j > 0 { assert units[j] == units[1..][j - 1]; }
            }
          }
        }
        r
  }

  /** `execute_session`: fills a new pipe, whose stack starts with `opening`, then runs
      `redis_execution` on it, keeping the session results. `results` stands for what
      the pipe's execution returns. */
  function ExecuteSession(ns: string, units: seq<Unit>, opening: seq<Command>, next: nat, results: seq<ExecValue>)
    : (r: Result<(seq<Command>, seq<ExecValue>), SessionError>)
    ensures !AllValid(units) ==> r.Err? && !r.error.ExecutionError?
    ensures r.Ok? ==> r.value.1 == Keep(results, SessionResults)
  {
    match SessionUnits(ns, units, SessionState(opening, next, []))
    case Err(e) => Err(e)
    case Ok(st) =>
      match RedisExecution(st.pipe, SessionResults, results)
      case Err(e) => Err(ExecutionError(e))
      case Ok(v) => Ok(v)
  }

  /** An instance that does not validate fails the session before the pipe executes:
      the outcome does not depend on what the execution would have returned. */
  lemma ValidateBeforeExecute(ns: string, units: seq<Unit>, opening: seq<Command>, next: nat,
                              results: seq<ExecValue>, results': seq<ExecValue>)
    requires !AllValid(units)
    ensures ExecuteSession(ns, units, opening, next, results) == ExecuteSession(ns, units, opening, next, results')
  {
  }

  /** A row as `session.lua` reads it back. */
  datatype RowView = RowView(action: string, id: string, score: Score, data: map<string, string>)

  function DecodeRow(args: seq<Arg>): Option<RowView> {
    if |args| >= 4 && args[0].Str? && args[1].Str? && args[2].ScoreArg? && args[3].Num? && args[3].n == |args| - 4 then
      match UnStrs(args[4..])
      case None => None
      case Some(flat) => Some(RowView(args[0].s, args[1].s, args[2].score, PairsToDict(flat)))
    else None
  }

  /** A row reads back as the instance's action, id, score and field data. */
  lemma RowRoundTrip(meta: Meta, inst: Instance)
    ensures DecodeRow(Row(meta, inst)) ==
            Some(RowView(if inst.persistent then "c" else "a", IdText(inst.id), RowScore(meta, inst),
                         ZipMap(Firsts(inst.data), Seconds(inst.data))))
  {
    var r := Row(meta, inst);
    assert r[4..] == Strs(FlatMapping(inst.data));
    UnStrsStrs(FlatMapping(inst.data));
    PairsFlatMapping(inst.data);
  }

  /** What a row of `inst` reads back as. */
  function RowViewOf(meta: Meta, inst: Instance): RowView {
    RowView(if inst.persistent then "c" else "a", IdText(inst.id), RowScore(meta, inst),
            ZipMap(Firsts(inst.data), Seconds(inst.data)))
  }

  function RowViews(meta: Meta, insts: seq<Instance>): (r: seq<RowView>)
    ensures |r| == |insts| && forall k :: 0 <= k < |insts| ==> r[k] == RowViewOf(meta, insts[k])
  {
    if insts == [] then [] else [RowViewOf(meta, insts[0])] + RowViews(meta, insts[1..])
  }

  /** Reads `n` rows off the front of `args`, each delimited by its length field, and
      leaves the rest. */
  function ReadRows(args: seq<Arg>, n: nat): Option<(seq<RowView>, seq<Arg>)>
    decreases n
  {
    if n == 0 then Some(([], args))
    else if |args| < 4 || !args[3].Num? || args[3].n < 0 || 4 + args[3].n > |args| then None
    else
      match DecodeRow(args[..4 + args[3].n])
      case None => None
      case Some(v) =>
        match ReadRows(args[4 + args[3].n..], n - 1)
        case None => None
        case Some((vs, rest)) => Some(([v] + vs, rest))
  }

  /** One unit's part of `lua_data` as the commit script reads it back. */
  datatype UnitView = UnitView(modelKey: string, family: string, indices: seq<Index>, rows: seq<RowView>)

  /** Reads a unit's header, its flat indices and as many rows as the header counts;
      what follows belongs to the next unit. */
  function DecodeUnit(args: seq<Arg>): Option<(UnitView, seq<Arg>)> {
    if |args| < 4 || !args[0].Str? || !args[1].Str? || !args[2].Num? || args[2].n < 0 ||
       !args[3].Num? || args[3].n < 0 || 4 + 2 * args[3].n > |args| then None
    else
      match UnflatIndices(args[4..4 + 2 * args[3].n])
      case None => None
      case Some(indices) =>
        match ReadRows(args[4 + 2 * args[3].n..], args[2].n)
        case None => None
        case Some((rows, rest)) => Some((UnitView(args[0].s, args[1].s, indices, rows), rest))
  }

  /** A row read off the front of a list leaves the list's remainder. */
  lemma RowStep(meta: Meta, inst: Instance, rest: seq<Arg>, n: nat)
    requires n > 0
    ensures ReadRows(Row(meta, inst) + rest, n) ==
            match ReadRows(rest, n - 1)
            case None => None
            case Some((vs, r)) => Some(([RowViewOf(meta, inst)] + vs, r))
  {
    var row := Row(meta, inst);
    var args := row + rest;
    assert args[3] == row[3];
    assert args[..4 + row[3].n] == row;
    assert args[4 + row[3].n..] == rest;
    RowRoundTrip(meta, inst);
  }

  /** The rows of a unit's instances read back, in order, as those instances. */
  lemma {:induction false} RowsRead(meta: Meta, insts: seq<Instance>, rows: seq<Arg>, tail: seq<Arg>)
    requires Rows(meta, insts) == Ok(rows)
    ensures ReadRows(rows + tail, |insts|) == Some((RowViews(meta, insts), tail))
  {
    if insts == [] {
      assert rows + tail == tail;
    } else {
      var row := Row(meta, insts[0]);
      var more := Rows(meta, insts[1..]).value;
      assert rows == row + more;
      AppendAssoc(row, more, tail);
      RowsRead(meta, insts[1..], more, tail);
      RowStep(meta, insts[0], more + tail, |insts|);
      assert |insts[1..]| == |insts| - 1;
      assert RowViews(meta, insts) == [RowViewOf(meta, insts[0])] + RowViews(meta, insts[1..]);
    }
  }

  /** A unit's header and rows read back as its model key, family, indices and the
      views of its instances, leaving whatever follows. */
  lemma UnitRoundTrip(ns: string, meta: Meta, insts: seq<Instance>, rows: seq<Arg>, tail: seq<Arg>)
    requires Rows(meta, insts) == Ok(rows)
    ensures DecodeUnit(UnitHeader(ns, meta, |insts|) + rows + tail) ==
            Some((UnitView(ModelKey(ns, meta), Family(meta), meta.indices, RowViews(meta, insts)), tail))
  {
    var h := UnitHeader(ns, meta, |insts|);
    assert h[0] == Str(ModelKey(ns, meta)) && h[1] == Str(Family(meta));
    AppendAssoc(h, rows, tail);
    HeaderShape(h, rows + tail, |insts|, meta.indices);
    RowsRead(meta, insts, rows, tail);
  }

  /** Any header of the right shape hands the rest of the list to `ReadRows`. */
  lemma HeaderShape(h: seq<Arg>, body: seq<Arg>, n: nat, indices: seq<Index>)
    requires |h| == 4 + 2 * |indices| && h[0].Str? && h[1].Str? && h[2] == Num(n) && h[3] == Num(|indices|)
    requires UnflatIndices(h[4..]) == Some(indices)
    ensures DecodeUnit(h + body) ==
            match ReadRows(body, n)
            case None => None
            case Some((rows, rest)) => Some((UnitView(h[0].s, h[1].s, indices, rows), rest))
  {
    var args := h + body;
    assert args[..4] == h[..4];
    assert args[4..4 + 2 * |indices|] == h[4..];
    assert args[4 + 2 * |indices|..] == body;
  }

  /** Extending `lua0` by a unit's header and rows appends a segment that reads back as
      the unit. */
  lemma SegmentReads(ns: string, meta: Meta, insts: seq<Instance>, rows: seq<Arg>, lua0: seq<Arg>, lua: seq<Arg>)
    requires Rows(meta, insts) == Ok(rows) && lua == lua0 + UnitHeader(ns, meta, |insts|) + rows
    ensures |lua0| <= |lua| && lua[..|lua0|] == lua0
    ensures DecodeUnit(lua[|lua0|..]) ==
            Some((UnitView(ModelKey(ns, meta), Family(meta), meta.indices, RowViews(meta, insts)), []))
  {
    var seg := UnitHeader(ns, meta, |insts|) + rows;
    AppendAssoc(lua0, UnitHeader(ns, meta, |insts|), rows);
    assert lua[|lua0|..] == seg;
    assert seg + [] == seg;
    UnitRoundTrip(ns, meta, insts, rows, []);
  }

  /** What one step of the loop adds. A structure unit appends its flushes' commands and
      leaves `lua_data` alone. An object unit queues its delete cascade; with instances
      it then extends `lua_data` by a segment that reads back as the unit and queues
      `commit_session` with the whole list. */
  lemma UnitStepAppends(ns: string, u: Unit, st: SessionState)
    requires UnitStep(ns, u, st).Ok?
    ensures var r := UnitStep(ns, u, st).value;
            match u
            case StructureUnit(structures) =>
              r.lua == st.lua && r.pipe == st.pipe + FlushAll(structures).commands
            case ObjectUnit(meta, dq, insts) =>
              DeleteStep(ns, dq, st.pipe, st.next).Ok? &&
              var p := DeleteStep(ns, dq, st.pipe, st.next).value;
              r.next == p.next &&
              if insts == [] then r.lua == st.lua && r.pipe == p.pipe
              else
                r.pipe == p.pipe + [Script("commit_session", r.lua)] &&
                |st.lua| <= |r.lua| && r.lua[..|st.lua|] == st.lua &&
                DecodeUnit(r.lua[|st.lua|..]) ==
                  Some((UnitView(ModelKey(ns, meta), Family(meta), meta.indices, RowViews(meta, insts)), []))
  {
    match u
    case StructureUnit(_) =>
    case ObjectUnit(meta, dq, insts) =>
      if insts != [] {
        SegmentReads(ns, meta, insts, Rows(meta, insts).value, st.lua, UnitStep(ns, u, st).value.lua);
      }
  }

  // ---------------------------------------------------------------------------------
  // lua_data across units

  predicate IsCommit(c: Command) {
    c.Script? && c.script == "commit_session"
  }

  /** From `lo` on, the arguments of every queued `commit_session` are a prefix of
      `lua`, and of those of every later `commit_session`. */
  predicate Grows(pipe: seq<Command>, lo: nat, lua: seq<Arg>) {
    (forall k :: lo <= k < |pipe| && IsCommit(pipe[k]) ==> pipe[k].args <= lua) &&
    (forall k1, k2 :: lo <= k1 < k2 < |pipe| && IsCommit(pipe[k1]) && IsCommit(pipe[k2]) ==>
       pipe[k1].args <= pipe[k2].args)
  }

  /** No command from `lo` on is a `commit_session`. */
  predicate NoCommitFrom(pipe: seq<Command>, lo: nat) {
    forall k :: lo <= k < |pipe| ==> !IsCommit(pipe[k])
  }

  lemma NoCommitTrans(p0: seq<Command>, p1: seq<Command>, p2: seq<Command>)
    requires p0 <= p1 <= p2 && NoCommitFrom(p1, |p0|) && NoCommitFrom(p2, |p1|)
    ensures NoCommitFrom(p2, |p0|)
  {
    forall k | |p0| <= k < |p2| ensures !IsCommit(p2[k]) {
      if k < |p1| { assert p2[k] == p1[k]; }
    }
  }

  lemma BuildNoCommit(ns: string, q: QueryElem, pipe: seq<Command>, next: nat)
    requires Build(ns, q, pipe, next).Ok?
    ensures NoCommitFrom(Build(ns, q, pipe, next).value.pipe, |pipe|)
  {
    var b := Build(ns, q, pipe, next).value;
    var a := Accumulate(ns, q, pipe, next).value;
    assert b.pipe == a.pipe;
    AccumulateCompiles(ns, q, pipe, next);
  }

  /** The delete cascade queues no `commit_session`. */
  lemma {:induction false} CascadeNoCommit(ns: string, q: QueryElem, key: string, pipe: seq<Command>, next: nat)
    requires DeleteCascade(ns, q, key, pipe, next).Ok?
    ensures NoCommitFrom(DeleteCascade(ns, q, key, pipe, next).value.pipe, |pipe|)
    decreases q.meta, 1
  {
    var selfs := SelfRecursions(ns, q.meta, key, q.meta.related);
    var p := RelatedDeletes(ns, q, 0, pipe + selfs, next).value;
    var r := DeleteCascade(ns, q, key, pipe, next).value;
    RelatedNoCommit(ns, q, 0, pipe + selfs, next);
    assert NoCommitFrom(pipe + selfs, |pipe|) by {
      forall k | |pipe| <= k < |pipe + selfs| ensures !IsCommit((pipe + selfs)[k]) {
        assert (pipe + selfs)[k] == selfs[k - |pipe|];
      }
    }
    NoCommitTrans(pipe, pipe + selfs, p.pipe);
    assert r.pipe == p.pipe + [DeleteQueryCall(ns, q.meta, key)];
    assert NoCommitFrom(r.pipe, |p.pipe|);
    NoCommitTrans(pipe, p.pipe, r.pipe);
  }

  lemma {:induction false} RelatedNoCommit(ns: string, q: QueryElem, i: nat, pipe: seq<Command>, next: nat)
    requires i <= |q.meta.related| && RelatedDeletes(ns, q, i, pipe, next).Ok?
    ensures NoCommitFrom(RelatedDeletes(ns, q, i, pipe, next).value.pipe, |pipe|)
    decreases q.meta, 0, |q.meta.related| - i
  {
    if i < |q.meta.related| {
      match q.meta.related[i]
      case SelfRel(_) =>
        SelfStep(ns, q, i, pipe, next);
        RelatedNoCommit(ns, q, i + 1, pipe, next);
      case CrossRel(attname, target) =>
        CrossNoCommit(ns, q, i, pipe, next, attname, target);
    }
  }

  lemma {:induction false} CrossNoCommit(ns: string, q: QueryElem, i: nat, pipe: seq<Command>, next: nat,
                                          attname: string, target: Meta)
    requires i < |q.meta.related| && q.meta.related[i] == CrossRel(attname, target)
    requires RelatedDeletes(ns, q, i, pipe, next).Ok?
    ensures NoCommitFrom(RelatedDeletes(ns, q, i, pipe, next).value.pipe, |pipe|)
    decreases q.meta, 0, |q.meta.related| - i, 1
  {
    CrossStep(ns, q, i, pipe, next, attname, target);
    var rq := RelatedQuery(q, attname, target);
    var b := Build(ns, rq, pipe, next).value;
    var c := DeleteCascade(ns, rq, b.key, b.pipe, b.next).value;
    CrossNoCommitParts(ns, q, i, attname, target, pipe, next, b, c);
  }

  lemma {:induction false} CrossNoCommitParts(ns: string, q: QueryElem, i: nat, attname: string, target: Meta,
                                               pipe: seq<Command>, next: nat, b: Built, c: Pending)
    requires i < |q.meta.related| && q.meta.related[i] == CrossRel(attname, target)
    requires Build(ns, RelatedQuery(q, attname, target), pipe, next) == Ok(b)
    requires DeleteCascade(ns, RelatedQuery(q, attname, target), b.key, b.pipe, b.next) == Ok(c)
    requires RelatedDeletes(ns, q, i + 1, c.pipe, c.next).Ok?
    ensures NoCommitFrom(RelatedDeletes(ns, q, i + 1, c.pipe, c.next).value.pipe, |pipe|)
    decreases q.meta, 0, |q.meta.related| - i, 0
  {
    assert q.meta.related[i] in q.meta.related;
    var rq := RelatedQuery(q, attname, target);
    var r := RelatedDeletes(ns, q, i + 1, c.pipe, c.next).value;
    BuildNoCommit(ns, rq, pipe, next);
    CascadeNoCommit(ns, rq, b.key, b.pipe, b.next);
    RelatedNoCommit(ns, q, i + 1, c.pipe, c.next);
    NoCommitTrans(pipe, b.pipe, c.pipe);
    NoCommitTrans(pipe, c.pipe, r.pipe);
  }

  /** A self relation adds nothing to the loop over the relations. */
  lemma SelfStep(ns: string, q: QueryElem, i: nat, pipe: seq<Command>, next: nat)
    requires i < |q.meta.related| && q.meta.related[i].SelfRel?
    ensures RelatedDeletes(ns, q, i, pipe, next) == RelatedDeletes(ns, q, i + 1, pipe, next)
    ensures CrossCount(q.meta, i) == CrossCount(q.meta, i + 1)
  {
  }

  lemma DeleteStepNoCommit(ns: string, dq: Option<QueryElem>, pipe: seq<Command>, next: nat)
    requires DeleteStep(ns, dq, pipe, next).Ok?
    ensures NoCommitFrom(DeleteStep(ns, dq, pipe, next).value.pipe, |pipe|)
  {
    if dq.Some? {
      var b := Build(ns, dq.value, pipe, next).value;
      var r := DeleteStep(ns, dq, pipe, next).value;
      assert DeleteCascade(ns, dq.value, b.key, b.pipe, b.next) == Ok(r);
      BuildNoCommit(ns, dq.value, pipe, next);
      CascadeNoCommit(ns, dq.value, b.key, b.pipe, b.next);
      NoCommitTrans(pipe, b.pipe, r.pipe);
    } else {
      assert DeleteStep(ns, dq, pipe, next).value.pipe == pipe;
    }
  }

  /** Commands that are not `commit_session`, and a longer `lua_data`, keep `Grows`. */
  lemma GrowsExtend(pipe: seq<Command>, pipe': seq<Command>, lo: nat, lua: seq<Arg>, lua': seq<Arg>)
    requires lo <= |pipe| && pipe <= pipe' && Grows(pipe, lo, lua) && NoCommitFrom(pipe', |pipe|) && lua <= lua'
    ensures Grows(pipe', lo, lua')
  {
    forall k | lo <= k < |pipe'| && IsCommit(pipe'[k]) ensures pipe'[k].args <= lua' {
      assert k < |pipe| && pipe'[k] == pipe[k];
    }
    forall k1, k2 | lo <= k1 < k2 < |pipe'| && IsCommit(pipe'[k1]) && IsCommit(pipe'[k2])
      ensures pipe'[k1].args <= pipe'[k2].args
    {
      assert k2 < |pipe| && pipe'[k1] == pipe[k1] && pipe'[k2] == pipe[k2];
    }
  }

  /** Appending a `commit_session` of the whole `lua_data` keeps `Grows`. */
  lemma GrowsCommit(pipe: seq<Command>, lo: nat, lua: seq<Arg>)
    requires lo <= |pipe| && Grows(pipe, lo, lua)
    ensures Grows(pipe + [Script("commit_session", lua)], lo, lua)
  {
    var pipe' := pipe + [Script("commit_session", lua)];
    forall k1, k2 | lo <= k1 < k2 < |pipe'| && IsCommit(pipe'[k1]) && IsCommit(pipe'[k2])
      ensures pipe'[k1].args <= pipe'[k2].args
    {
      assert pipe'[k1] == pipe[k1];
      if k2 < |pipe| { assert pipe'[k2] == pipe[k2]; }
    }
  }

  lemma UnitGrows(ns: string, u: Unit, st: SessionState, lo: nat)
    requires lo <= |st.pipe| && Grows(st.pipe, lo, st.lua) && UnitStep(ns, u, st).Ok?
    ensures Grows(UnitStep(ns, u, st).value.pipe, lo, UnitStep(ns, u, st).value.lua)
  {
    match u
    case StructureUnit(structures) => StructureUnitGrows(ns, structures, st, lo);
    case ObjectUnit(meta, dq, insts) => ObjectUnitGrows(ns, meta, dq, insts, st, lo);
  }

  lemma StructureUnitGrows(ns: string, structures: seq<Structure>, st: SessionState, lo: nat)
    requires lo <= |st.pipe| && Grows(st.pipe, lo, st.lua) && UnitStep(ns, StructureUnit(structures), st).Ok?
    ensures Grows(UnitStep(ns, StructureUnit(structures), st).value.pipe, lo,
                  UnitStep(ns, StructureUnit(structures), st).value.lua)
  {
    var r := UnitStep(ns, StructureUnit(structures), st).value;
    var f := FlushAll(structures);
    assert r.pipe == st.pipe + f.commands && r.lua == st.lua;
    assert NoCommitFrom(r.pipe, |st.pipe|) by {
      forall k | |st.pipe| <= k < |r.pipe| ensures !IsCommit(r.pipe[k]) {
        assert r.pipe[k] == f.commands[k - |st.pipe|];
      }
    }
    GrowsExtend(st.pipe, r.pipe, lo, st.lua, r.lua);
  }

  lemma ObjectUnitGrows(ns: string, meta: Meta, dq: Option<QueryElem>, insts: seq<Instance>, st: SessionState, lo: nat)
    requires lo <= |st.pipe| && Grows(st.pipe, lo, st.lua) && UnitStep(ns, ObjectUnit(meta, dq, insts), st).Ok?
    ensures Grows(UnitStep(ns, ObjectUnit(meta, dq, insts), st).value.pipe, lo,
                  UnitStep(ns, ObjectUnit(meta, dq, insts), st).value.lua)
  {
    var r := UnitStep(ns, ObjectUnit(meta, dq, insts), st).value;
    var p := DeleteStep(ns, dq, st.pipe, st.next).value;
    DeleteStepNoCommit(ns, dq, st.pipe, st.next);
    if insts == [] {
      assert r.pipe == p.pipe && r.lua == st.lua;
      GrowsExtend(st.pipe, p.pipe, lo, st.lua, st.lua);
    } else {
      assert r.pipe == p.pipe + [Script("commit_session", r.lua)];
      GrowsExtend(st.pipe, p.pipe, lo, st.lua, r.lua);
      GrowsCommit(p.pipe, lo, r.lua);
    }
  }

  lemma {:induction false} SessionGrows(ns: string, units: seq<Unit>, st: SessionState, lo: nat)
    requires lo <= |st.pipe| && Grows(st.pipe, lo, st.lua) && SessionUnits(ns, units, st).Ok?
    ensures Grows(SessionUnits(ns, units, st).value.pipe, lo, SessionUnits(ns, units, st).value.lua)
  {
    if units != [] {
      var st1 := UnitStep(ns, units[0], st).value;
      UnitGrows(ns, units[0], st, lo);
      SessionGrows(ns, units[1..], st1, lo);
    }
  }

  /** `lua_data` is never reset: each `commit_session` the session queues carries the
      arguments of every earlier one as a prefix of its own. */
  lemma CommitArgsAccumulate(ns: string, units: seq<Unit>, opening: seq<Command>, next: nat)
    requires SessionUnits(ns, units, SessionState(opening, next, [])).Ok?
    ensures var p := SessionUnits(ns, units, SessionState(opening, next, [])).value.pipe;
            forall k1, k2 :: |opening| <= k1 < k2 < |p| && IsCommit(p[k1]) && IsCommit(p[k2]) ==>
              p[k1].args <= p[k2].args
  {
    SessionGrows(ns, units, SessionState(opening, next, []), |opening|);
  }
}
