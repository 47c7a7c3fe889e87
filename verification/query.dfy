/** `RedisQuery`: the query-tree compiler `accumulate`, `_build` and `_execute_query`,
    the slice arithmetic of `get_redis_slice` and `_items`, the sort arguments of
    `order` and `related_lua_args`, and the row builder of `load_query.build`. */
module Query {
  import opened Wrappers
  import opened Models
  import opened Keys
  import opened Commands

  /** A node's keyword: one of the four set operations the compiler knows, or any other
      word, which it rejects. `KOther` is meant for words other than those four;
      `ToKeyword` reads a word that way. */
  datatype Keyword = KSet | KIntersect | KUnion | KDiff | KOther(word: string)

  /** The word a keyword stands for. */
  function KeywordWord(k: Keyword): string {
    match k
    case KSet => "set"
    case KIntersect => "intersect"
    case KUnion => "union"
    case KDiff => "diff"
    case KOther(w) => w
  }

  /** Reads a query's keyword, keeping `KOther` for the words the compiler does not know. */
  function ToKeyword(word: string): (k: Keyword)
    ensures k.KOther? <==> word != "set" && word != "intersect" && word != "union" && word != "diff"
    ensures KeywordWord(k) == word
  {
    if word == "set" then KSet
    else if word == "intersect" then KIntersect
    else if word == "union" then KUnion
    else if word == "diff" then KDiff
    else KOther(word)
  }

  /** A node of the query tree (`queryelem`): a `set` leaf selecting by field `name`
      with `lookup`, or a set operation over its children. A child is a query of the
      same backend, compiled into the same pipe, or a plain value. */
  datatype QueryElem = QueryElem(
    meta: Meta,
    keyword: Keyword,
    name: string,
    unique: bool,
    lookup: string,
    children: seq<Child>)

  datatype Child = Sub(q: QueryElem) | Value(v: Option<string>)

  datatype QueryError = ValueError(word: string)

  /** A compiled node: the key holding its result, the pipe so far and the next id the
      unique-id counter hands out. */
  datatype Compiled = Compiled(key: string, pipe: seq<Command>, next: nat)

  /** The children's arguments, one `(tag, key)` pair per child: `('', value)` for a
      value, `('key', key)` for a compiled query. */
  datatype Gathered = Gathered(tags: seq<string>, keys: seq<string>, pipe: seq<Command>, next: nat)

  /** The pairs flattened, as `args.extend((tag, key))` leaves them. */
  function Interleave(tags: seq<string>, keys: seq<string>): (args: seq<Arg>)
    requires |tags| == |keys|
    ensures |args| == 2 * |keys|
  {
    if keys == [] then [] else [Str(tags[0]), Str(keys[0])] + Interleave(tags[1..], keys[1..])
  }

  /** `args[1::2]`: the elements at odd positions. */
  function Odds(args: seq<Arg>): (r: seq<Arg>)
    ensures |r| == |args| / 2
  {
    if |args| < 2 then [] else [args[1]] + Odds(args[2..])
  }

  /** The node selecting all ids, which needs no command. */
  predicate IsAllIds(q: QueryElem) {
    q.keyword == KSet && q.name == "id" && q.children == []
  }

  /** No keyword anywhere in the tree makes the compiler raise. */
  predicate WellFormed(q: QueryElem)
    decreases q
  {
    !q.keyword.KOther? &&
    forall i :: 0 <= i < |q.children| ==> q.children[i].Value? || WellFormed(q.children[i].q)
  }

  /** How many commands compiling `q` emits: one per node, except the all-ids leaf. */
  function CommandCount(q: QueryElem): nat
    decreases q, 1
  {
    (if IsAllIds(q) then 0 else 1) + ChildCount(q, 0)
  }

  function ChildCount(q: QueryElem, i: nat): nat
    decreases q, 0, |q.children| - i
  {
    if i >= |q.children| then 0
    else (match q.children[i] case Sub(c) => CommandCount(c) case Value(_) => 0) + ChildCount(q, i + 1)
  }

  function StoreOp(k: Keyword): (op: Option<string>)
    ensures op.Some? ==> op.value in {"interstore", "unionstore", "diffstore"}
  {
    match k
    case KIntersect => Some("interstore")
    case KUnion => Some("unionstore")
    case KDiff => Some("diffstore")
    case _ => None
  }

  function OrEmpty(v: Option<string>): string {
    if v.Some? then v.value else ""
  }

  /** `build_query`'s call: model key, family, destination, field, unique flag, lookup,
      then the children's arguments. */
  function BuildQueryCall(ns: string, q: QueryElem, key: string, args: seq<Arg>): (c: Command)
    ensures Dest(c) == Some(key)
  {
    Script("build_query",
           [Str(ModelKey(ns, q.meta)), Str(Family(q.meta)), Str(key), Str(q.name),
            Str(if q.unique then "u" else ""), Str(q.lookup)] + args)
  }

  /** The key a command stores its result under: `build_query`'s third argument, a
      store command's first. */
  function Dest(c: Command): Option<string> {
    match c
    case Script(s, args) =>
      if s == "build_query" && |args| >= 3 && args[2].Str? then Some(args[2].s) else None
    case Call(name, args) =>
      if |args| >= 1 && args[0].Str? && |name| >= 5 && name[|name| - 5..] == "store" then Some(args[0].s)
      else None
  }

  /** A set operation of the model's family storing into `key`: `zinterstore`,
      `sunionstore` and so on, given the destination and the source keys. */
  function StoreCall(meta: Meta, op: string, key: string, sources: seq<string>): (c: Command)
    requires op in {"interstore", "unionstore", "diffstore"}
    ensures Dest(c) == Some(key)
    ensures c.Call? && c.name == Family(meta) + op && c.args == [Str(key)] + Strs(sources)
  {
    var name := Family(meta) + op;
    assert name[|name| - 5..] == "store";
    Call(name, [Str(key)] + Strs(sources))
  }

  /** Some command of `pipe` at or after position `lo` stores into `key`. */
  predicate Writes(pipe: seq<Command>, lo: nat, key: string) {
    exists k :: lo <= k < |pipe| && Dest(pipe[k]) == Some(key)
  }

  /** `accumulate`: the children are compiled first, into the same pipe and in order;
      then the all-ids leaf returns the model's id key and emits nothing, any other `set`
      node emits one `build_query` into a new temporary key, and a set operation emits
      one store command of the model's family over the children's keys. Any other
      keyword raises `ValueError`, after its children are compiled and a temporary key
      is drawn. */
  function Accumulate(ns: string, q: QueryElem, pipe: seq<Command>, next: nat): (r: Result<Compiled, QueryError>)
    ensures r.Ok? <==> WellFormed(q)
    ensures r.Ok? ==> pipe <= r.value.pipe
    ensures r.Ok? ==> |r.value.pipe| == |pipe| + CommandCount(q) && r.value.next == next + CommandCount(q)
    ensures r.Ok? && IsAllIds(q) ==> r.value == Compiled(Basekey(ns, q.meta, [Some("id")]), pipe, next)
    ensures r.Ok? && !IsAllIds(q) ==> Dest(r.value.pipe[|r.value.pipe| - 1]) == Some(r.value.key)
    decreases q, 1
  {
    match Gather(ns, q, 0, pipe, next)
    case Err(e) => Err(e)
    case Ok(g) =>
      if q.keyword == KSet then
        if q.name == "id" && g.keys == [] then
          Ok(Compiled(Basekey(ns, q.meta, [Some("id")]), g.pipe, g.next))
        else
          var key := Tempkey(ns, q.meta, g.next);
          Ok(Compiled(key, g.pipe + [BuildQueryCall(ns, q, key, Interleave(g.tags, g.keys))], g.next + 1))
      else
        var key := Tempkey(ns, q.meta, g.next);
        match StoreOp(q.keyword)
        case None => Err(ValueError(q.keyword.word))
        case Some(op) => Ok(Compiled(key, g.pipe + [StoreCall(q.meta, op, key, g.keys)], g.next + 1))
  }

  /** The loop over the children of `q` from the `i`-th on. */
  function Gather(ns: string, q: QueryElem, i: nat, pipe: seq<Command>, next: nat): (r: Result<Gathered, QueryError>)
    requires i <= |q.children|
    ensures r.Ok? <==> forall j :: i <= j < |q.children| ==> q.children[j].Value? || WellFormed(q.children[j].q)
    ensures r.Ok? ==> pipe <= r.value.pipe
    ensures r.Ok? ==> |r.value.pipe| == |pipe| + ChildCount(q, i) && r.value.next == next + ChildCount(q, i)
    ensures r.Ok? ==> |r.value.keys| == |q.children| - i && |r.value.tags| == |r.value.keys|
    decreases q, 0, |q.children| - i
  {
    if i == |q.children| then Ok(Gathered([], [], pipe, next))
    else
      ChildrenStep(q, i);
      match q.children[i]
      case Value(v) =>
        (match Gather(ns, q, i + 1, pipe, next)
         case Err(e) => Err(e)
         case Ok(rest) =>
           Ok(Gathered([""] + rest.tags, [OrEmpty(v)] + rest.keys, rest.pipe, rest.next)))
      case Sub(c) =>
        (match Accumulate(ns, c, pipe, next)
         case Err(e) => Err(e)
         case Ok(compiled) =>
           match Gather(ns, q, i + 1, compiled.pipe, compiled.next)
           case Err(e) => Err(e)
           case Ok(rest) =>
             Ok(Gathered(["key"] + rest.tags, [compiled.key] + rest.keys, rest.pipe, rest.next)))
  }

  /** The children from the `i`-th on compile when the `i`-th does and the rest do. */
  lemma ChildrenStep(q: QueryElem, i: nat)
    requires i < |q.children|
    ensures (forall j :: i <= j < |q.children| ==> q.children[j].Value? || WellFormed(q.children[j].q)) <==>
            (q.children[i].Value? || WellFormed(q.children[i].q)) &&
            (forall j :: i + 1 <= j < |q.children| ==> q.children[j].Value? || WellFormed(q.children[j].q))
  {
  }

  // ---------------------------------------------------------------------------------
  // What the compiler emits

  /** `args.extend(...)` leaves the keys at the odd positions: `args[1::2]` is exactly
      the list of the children's keys, in order. */
  lemma {:induction false} OddsInterleave(tags: seq<string>, keys: seq<string>)
    requires |tags| == |keys|
    ensures Odds(Interleave(tags, keys)) == Strs(keys)
  {
    if keys != [] {
      OddsInterleave(tags[1..], keys[1..]);
      assert Interleave(tags, keys)[2..] == Interleave(tags[1..], keys[1..]);
      assert Strs(keys) == [Str(keys[0])] + Strs(keys[1..]);
    }
  }

  lemma WritesExtend(pipe: seq<Command>, pipe': seq<Command>, lo: nat, key: string)
    requires Writes(pipe, lo, key) && pipe <= pipe'
    ensures Writes(pipe', lo, key)
  {
    var k :| lo <= k < |pipe| && Dest(pipe[k]) == Some(key);
    assert pipe'[k] == pipe[k];
  }

  /** The key a child hands its parent: a value (or `''` for `None`), the model's id key
      for the all-ids leaf, or a key some command of this compilation stored into. */
  predicate KeyFlows(ns: string, c: Child, tag: string, key: string, pipe: seq<Command>, lo: nat) {
    match c
    case Value(v) => tag == "" && key == OrEmpty(v)
    case Sub(q) =>
      tag == "key" &&
      (if IsAllIds(q) then key == Basekey(ns, q.meta, [Some("id")]) else Writes(pipe, lo, key))
  }

  /** Every child from the `i`-th on hands over its pair as `KeyFlows` says. */
  predicate AllFlow(ns: string, q: QueryElem, i: nat, tags: seq<string>, keys: seq<string>, pipe: seq<Command>, lo: nat)
    requires i + |keys| <= |q.children| && |tags| == |keys|
    decreases |keys|
  {
    keys == [] ||
    (KeyFlows(ns, q.children[i], tags[0], keys[0], pipe, lo) &&
     AllFlow(ns, q, i + 1, tags[1..], keys[1..], pipe, lo))
  }

  lemma {:induction false} AllFlowAt(ns: string, q: QueryElem, i: nat, tags: seq<string>, keys: seq<string>, pipe: seq<Command>, lo: nat, j: nat)
    requires i + |keys| <= |q.children| && |tags| == |keys|
    requires AllFlow(ns, q, i, tags, keys, pipe, lo) && j < |keys|
    ensures KeyFlows(ns, q.children[i + j], tags[j], keys[j], pipe, lo)
    decreases j
  {
    if j > 0 {
      AllFlowAt(ns, q, i + 1, tags[1..], keys[1..], pipe, lo, j - 1);
    }
  }

  /** Lowering the bound below which commands are ignored keeps every pair flowing. */
  lemma {:induction false} AllFlowLower(ns: string, q: QueryElem, i: nat, tags: seq<string>, keys: seq<string>, pipe: seq<Command>, lo: nat, lo': nat)
    requires i + |keys| <= |q.children| && |tags| == |keys| && lo' <= lo
    requires AllFlow(ns, q, i, tags, keys, pipe, lo)
    ensures AllFlow(ns, q, i, tags, keys, pipe, lo')
    decreases |keys|
  {
    if keys != [] {
      AllFlowLower(ns, q, i + 1, tags[1..], keys[1..], pipe, lo, lo');
      if q.children[i].Sub? && !IsAllIds(q.children[i].q) {
        var k :| lo <= k < |pipe| && Dest(pipe[k]) == Some(keys[0]);
        assert lo' <= k;
      }
    }
  }

  /** Each child contributes `('', value)` or `('key', key)`, where a compiled child's
      key is one its own commands, emitted earlier into the same pipe, stored into. */
  lemma {:induction false} GatherKeys(ns: string, q: QueryElem, i: nat, pipe: seq<Command>, next: nat)
    requires i <= |q.children|
    requires Gather(ns, q, i, pipe, next).Ok?
    ensures var g := Gather(ns, q, i, pipe, next).value;
            AllFlow(ns, q, i, g.tags, g.keys, g.pipe, |pipe|)
    decreases |q.children| - i
  {
    if i < |q.children| {
      match q.children[i]
      case Value(v) =>
        GatherKeys(ns, q, i + 1, pipe, next);
        GatherValueFlows(ns, q, i, pipe, next, v, Gather(ns, q, i + 1, pipe, next).value);
      case Sub(c) =>
        var compiled := Accumulate(ns, c, pipe, next).value;
        var rest := Gather(ns, q, i + 1, compiled.pipe, compiled.next).value;
        GatherKeys(ns, q, i + 1, compiled.pipe, compiled.next);
        GatherSubFlows(ns, q, i, pipe, next, c, compiled, rest);
    }
  }

  lemma GatherValueFlows(ns: string, q: QueryElem, i: nat, pipe: seq<Command>, next: nat, v: Option<string>, rest: Gathered)
    requires i < |q.children| && q.children[i] == Value(v)
    requires Gather(ns, q, i + 1, pipe, next) == Ok(rest)
    requires AllFlow(ns, q, i + 1, rest.tags, rest.keys, rest.pipe, |pipe|)
    ensures Gather(ns, q, i, pipe, next).Ok?
    ensures var g := Gather(ns, q, i, pipe, next).value;
            AllFlow(ns, q, i, g.tags, g.keys, g.pipe, |pipe|)
  {
    var g := Gather(ns, q, i, pipe, next).value;
    assert g == Gathered([""] + rest.tags, [OrEmpty(v)] + rest.keys, rest.pipe, rest.next);
    assert g.tags[1..] == rest.tags && g.keys[1..] == rest.keys;
  }

  lemma GatherSubFlows(ns: string, q: QueryElem, i: nat, pipe: seq<Command>, next: nat, c: QueryElem,
                       compiled: Compiled, rest: Gathered)
    requires i < |q.children| && q.children[i] == Sub(c)
    requires Accumulate(ns, c, pipe, next) == Ok(compiled)
    requires Gather(ns, q, i + 1, compiled.pipe, compiled.next) == Ok(rest)
    requires AllFlow(ns, q, i + 1, rest.tags, rest.keys, rest.pipe, |compiled.pipe|)
    ensures Gather(ns, q, i, pipe, next).Ok?
    ensures var g := Gather(ns, q, i, pipe, next).value;
            AllFlow(ns, q, i, g.tags, g.keys, g.pipe, |pipe|)
  {
    var g := Gather(ns, q, i, pipe, next).value;
    assert g == Gathered(["key"] + rest.tags, [compiled.key] + rest.keys, rest.pipe, rest.next);
    SubKeyFlows(ns, c, pipe, next, compiled, rest.pipe);
    FlowCons(ns, q, i, "key", compiled.key, rest, |compiled.pipe|, |pipe|, g);
  }

  /** A compiled child's key is stored into by a command at or after the pipe's old end,
      in any pipe the compiled one is a prefix of. */
  lemma SubKeyFlows(ns: string, c: QueryElem, pipe: seq<Command>, next: nat, compiled: Compiled, later: seq<Command>)
    requires Accumulate(ns, c, pipe, next) == Ok(compiled) && compiled.pipe <= later
    ensures KeyFlows(ns, Sub(c), "key", compiled.key, later, |pipe|)
  {
    if !IsAllIds(c) {
      var last := |compiled.pipe| - 1;
      assert later[last] == compiled.pipe[last];
      assert |pipe| <= last && Dest(later[last]) == Some(compiled.key);
    }
  }

  /** Prepending a flowing pair to pairs that flow from a later bound. */
  lemma FlowCons(ns: string, q: QueryElem, i: nat, tag: string, key: string, rest: Gathered, lo: nat, lo': nat, g: Gathered)
    requires i + 1 + |rest.keys| <= |q.children| && |rest.tags| == |rest.keys| && lo' <= lo
    requires g == Gathered([tag] + rest.tags, [key] + rest.keys, rest.pipe, rest.next)
    requires AllFlow(ns, q, i + 1, rest.tags, rest.keys, rest.pipe, lo)
    requires KeyFlows(ns, q.children[i], tag, key, rest.pipe, lo')
    ensures AllFlow(ns, q, i, g.tags, g.keys, g.pipe, lo')
  {
    AllFlowLower(ns, q, i + 1, rest.tags, rest.keys, rest.pipe, lo, lo');
    assert g.tags[1..] == rest.tags && g.keys[1..] == rest.keys;
  }

  lemma GatherKeysAll(ns: string, q: QueryElem, pipe: seq<Command>, next: nat)
    requires Gather(ns, q, 0, pipe, next).Ok?
    ensures var g := Gather(ns, q, 0, pipe, next).value;
            |g.keys| == |q.children| &&
            forall j :: 0 <= j < |q.children| ==> KeyFlows(ns, q.children[j], g.tags[j], g.keys[j], g.pipe, |pipe|)
  {
    var g := Gather(ns, q, 0, pipe, next).value;
    GatherKeys(ns, q, 0, pipe, next);
    forall j | 0 <= j < |q.children|
      ensures KeyFlows(ns, q.children[j], g.tags[j], g.keys[j], g.pipe, |pipe|)
    {
      AllFlowAt(ns, q, 0, g.tags, g.keys, g.pipe, |pipe|, j);
    }
  }

  /** A set operation emits exactly one store command, last, of the model's family; its
      sources are exactly the children's keys in order, each a value, the id key, or a
      key stored into by an earlier command of the same pipe. */
  lemma StoreOverChildren(ns: string, q: QueryElem, pipe: seq<Command>, next: nat)
    requires StoreOp(q.keyword).Some? && Accumulate(ns, q, pipe, next).Ok?
    ensures var r := Accumulate(ns, q, pipe, next).value;
            var g := Gather(ns, q, 0, pipe, next).value;
            var last := r.pipe[|r.pipe| - 1];
            r.pipe == g.pipe + [last] &&
            last == StoreCall(q.meta, StoreOp(q.keyword).value, r.key, g.keys) &&
            |g.keys| == |q.children| &&
            forall j :: 0 <= j < |q.children| ==> KeyFlows(ns, q.children[j], g.tags[j], g.keys[j], g.pipe, |pipe|)
  {
    var g := Gather(ns, q, 0, pipe, next).value;
    var r := Accumulate(ns, q, pipe, next).value;
    var last := StoreCall(q.meta, StoreOp(q.keyword).value, Tempkey(ns, q.meta, g.next), g.keys);
    assert r == Compiled(Tempkey(ns, q.meta, g.next), g.pipe + [last], g.next + 1);
    assert r.pipe[|r.pipe| - 1] == last;
    GatherKeysAll(ns, q, pipe, next);
  }

  /** A `set` node other than the all-ids leaf emits exactly one `build_query`, last,
      into a new temporary key, with the children's `(tag, key)` pairs as trailing
      arguments. */
  lemma BuildQueryOverChildren(ns: string, q: QueryElem, pipe: seq<Command>, next: nat)
    requires q.keyword == KSet && !IsAllIds(q) && Accumulate(ns, q, pipe, next).Ok?
    ensures var r := Accumulate(ns, q, pipe, next).value;
            var g := Gather(ns, q, 0, pipe, next).value;
            r.pipe == g.pipe + [BuildQueryCall(ns, q, r.key, Interleave(g.tags, g.keys))] &&
            r.key == Tempkey(ns, q.meta, g.next) && r.next == g.next + 1 &&
            forall j :: 0 <= j < |q.children| ==> KeyFlows(ns, q.children[j], g.tags[j], g.keys[j], g.pipe, |pipe|)
  {
    GatherKeysAll(ns, q, pipe, next);
  }

  /** Every compiled node other than the all-ids leaf stores into the temporary key the
      counter handed out last, so no two nodes of one pipe share a key. */
  lemma AccumulateTempkey(ns: string, q: QueryElem, pipe: seq<Command>, next: nat)
    requires !IsAllIds(q) && Accumulate(ns, q, pipe, next).Ok?
    ensures var r := Accumulate(ns, q, pipe, next).value;
            r.next >= next + 1 && r.key == Tempkey(ns, q.meta, r.next - 1)
  {
    var g := Gather(ns, q, 0, pipe, next).value;
    assert g.next >= next;
    assert Accumulate(ns, q, pipe, next).value.next == g.next + 1;
  }

  /** A command the compiler emits: a `build_query` script or a client call. */
  predicate CompileCommand(c: Command) {
    c.Call? || (c.Script? && c.script == "build_query")
  }

  predicate CompiledFrom(pipe: seq<Command>, lo: nat) {
    forall k :: lo <= k < |pipe| ==> CompileCommand(pipe[k])
  }

  /** Compiling a query appends only `build_query` scripts and store calls. */
  lemma {:induction false} AccumulateCompiles(ns: string, q: QueryElem, pipe: seq<Command>, next: nat)
    requires Accumulate(ns, q, pipe, next).Ok?
    ensures CompiledFrom(Accumulate(ns, q, pipe, next).value.pipe, |pipe|)
    decreases q, 1
  {
    var g := Gather(ns, q, 0, pipe, next).value;
    var r := Accumulate(ns, q, pipe, next).value;
    GatherCompiles(ns, q, 0, pipe, next);
    AccumulateLast(ns, q, pipe, next);
    forall k | |pipe| <= k < |r.pipe| ensures CompileCommand(r.pipe[k]) {
      if k < |g.pipe| {
        assert r.pipe[k] == g.pipe[k];
      }
    }
  }

  /** A node adds at most one command after its children's, a `build_query` script or a
      client call. */
  lemma AccumulateLast(ns: string, q: QueryElem, pipe: seq<Command>, next: nat)
    requires Accumulate(ns, q, pipe, next).Ok?
    ensures var r := Accumulate(ns, q, pipe, next).value;
            var g := Gather(ns, q, 0, pipe, next).value;
            r.pipe == g.pipe ||
            (|r.pipe| == |g.pipe| + 1 && r.pipe[..|g.pipe|] == g.pipe && CompileCommand(r.pipe[|g.pipe|]))
  {
  }

  lemma {:induction false} GatherCompiles(ns: string, q: QueryElem, i: nat, pipe: seq<Command>, next: nat)
    requires i <= |q.children| && Gather(ns, q, i, pipe, next).Ok?
    ensures CompiledFrom(Gather(ns, q, i, pipe, next).value.pipe, |pipe|)
    decreases q, 0, |q.children| - i
  {
    if i < |q.children| {
      match q.children[i]
      case Value(v) =>
        GatherCompiles(ns, q, i + 1, pipe, next);
      case Sub(c) =>
        var compiled := Accumulate(ns, c, pipe, next).value;
        AccumulateCompiles(ns, c, pipe, next);
        GatherCompiles(ns, q, i + 1, compiled.pipe, compiled.next);
    }
  }

  // ---------------------------------------------------------------------------------
  // _build and _execute_query

  /** A built query: its key, the pipe, and the client methods `_build` picked. */
  datatype Built = Built(query: QueryElem, key: string, pipe: seq<Command>, next: nat, ismember: string, card: string)

  /** `_build`: compiles the tree, then picks `zrank`/`sismember` for membership and,
      crosswise, `scard` for an ordered model and `zcard` for an unordered one. */
  function Build(ns: string, q: QueryElem, pipe: seq<Command>, next: nat): (r: Result<Built, QueryError>)
    ensures r.Ok? <==> WellFormed(q)
    ensures r.Ok? ==> r.value.ismember == (if q.meta.ordering.Some? then "zrank" else "sismember")
    ensures r.Ok? ==> r.value.card == (if q.meta.ordering.Some? then "scard" else "zcard")
    ensures r.Ok? ==> r.value.query == q && pipe <= r.value.pipe
  {
    match Accumulate(ns, q, pipe, next)
    case Err(e) => Err(e)
    case Ok(c) =>
      if q.meta.ordering.Some? then Ok(Built(q, c.key, c.pipe, c.next, "zrank", "scard"))
      else Ok(Built(q, c.key, c.pipe, c.next, "sismember", "zcard"))
  }

  /** The count command `_execute_query` queues: `zcard` for an ordered model, `scard`
      for an unordered one. */
  function CountCommand(m: Meta, key: string): (c: Command)
    ensures c.Call? && c.args == [Str(key)]
    ensures c.name == Family(m) + "card"
  {
    Call(if m.ordering.Some? then "zcard" else "scard", [Str(key)])
  }

  /** `_execute_query`: queues the count command, executes the pipe and returns the
      count of the last query result; `IndexError` when there is none. */
  function ExecuteQuery(b: Built, results: seq<ExecValue>): (r: Result<(seq<Command>, seq<ExecValue>, int), ExecError>)
    ensures r.Ok? ==> r.value.0 == (b.pipe + [CountCommand(b.query.meta, b.key)])[1..]
    ensures r.Ok? ==> r.value.1 == Keep(results, QueryResults) && r.value.1 != [] &&
                      r.value.1[|r.value.1| - 1].QueryResult? &&
                      r.value.2 == r.value.1[|r.value.1| - 1].count
    ensures (forall i :: 0 <= i < |results| ==> !results[i].Raised?) && Keep(results, QueryResults) != [] ==> r.Ok?
  {
    match RedisExecution(b.pipe + [CountCommand(b.query.meta, b.key)], QueryResults, results)
    case Err(e) => Err(e)
    case Ok((commands, found)) =>
      if found == [] then Err(IndexError)
      else
        assert found[|found| - 1] in found;
        Ok((commands, found, found[|found| - 1].count))
  }

  /** The membership and count methods `_build` picks are of opposite families: the
      count method never matches the family `_execute_query` counts with, which is the
      family of the model's key. */
  lemma CardCrosswise(ns: string, q: QueryElem, pipe: seq<Command>, next: nat)
    requires Build(ns, q, pipe, next).Ok?
    ensures var b := Build(ns, q, pipe, next).value;
            b.card != CountCommand(q.meta, b.key).name &&
            b.ismember[0] == Family(q.meta)[0] && b.card[0] != Family(q.meta)[0]
  {
  }
}
