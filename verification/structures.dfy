/** The per-structure `flush` of the Redis backend: the commands a structure's cache of
    pending changes becomes, queued on the client or the session's pipe. */
module Structures {
  import opened Wrappers
  import opened Commands
  import opened Mappings

  /** A structure with its cache of pending changes. A sorted set or time series adds
      (score, member) pairs; a hash adds (field, value) pairs. */
  datatype Structure =
    | SetS(id: string, toadd: seq<string>, toremove: seq<string>)
    | ZsetS(id: string, scored: seq<(Score, string)>, toremove: seq<string>)
    | ListS(id: string, front: seq<string>, back: seq<string>)
    | HashS(id: string, fields: seq<(string, string)>, toremove: seq<string>)
    | TsS(id: string, scored: seq<(Score, string)>, toremove: seq<string>)

  /** The commands queued, and the exception raised after them, if any. */
  datatype Flushed = Flushed(commands: seq<Command>, raised: Option<string>)

  const NOT_IMPLEMENTED := "NotImplementedError"

  /** `cache.toadd.flat()`: each score followed by its member. */
  function FlatScored(pairs: seq<(Score, string)>): (args: seq<Arg>)
    ensures |args| == 2 * |pairs|
    ensures forall i :: 0 <= i < |pairs| ==> args[2 * i] == ScoreArg(pairs[i].0) && args[2 * i + 1] == Str(pairs[i].1)
  {
    if pairs == [] then [] else [ScoreArg(pairs[0].0), Str(pairs[0].1)] + FlatScored(pairs[1..])
  }

  /** A client call on the structure's key. */
  function On(name: string, id: string, args: seq<Arg>): Command {
    Call(name, [Str(id)] + args)
  }

  /** `flush` of each structure: an add command when there is something to add, then a
      remove command when there is something to remove; a list pushes its front items
      with `lpush` and then its back items with `rpush`. As written, a sorted set's
      remove branch queues a second `zadd` of the items to add, and a time series
      raises `NotImplementedError` when there is anything to remove. */
  function Flush(s: Structure): (r: Flushed)
    ensures r.raised.Some? <==> s.TsS? && s.toremove != []
    ensures |r.commands| <= 2
    ensures forall k :: 0 <= k < |r.commands| ==> r.commands[k].Call? && r.commands[k].args != [] && r.commands[k].args[0] == Str(s.id)
  {
    match s
    case SetS(id, toadd, toremove) => Flushed(SetFlush(id, toadd, toremove), None)
    case ZsetS(id, scored, toremove) => Flushed(ZsetFlush(id, scored, toremove), None)
    case ListS(id, front, back) => Flushed(ListFlush(id, front, back), None)
    case HashS(id, fields, toremove) => Flushed(HashFlush(id, fields, toremove), None)
    case TsS(id, scored, toremove) =>
      Flushed(if scored != [] then [On("tsadd", id, FlatScored(scored))] else [],
              if toremove != [] then Some(NOT_IMPLEMENTED) else None)
  }

  /** A set's flush: `sadd` of the members to add, then `srem` of those to remove. */
  function SetFlush(id: string, toadd: seq<string>, toremove: seq<string>): (cmds: seq<Command>)
    ensures |cmds| <= 2 && (cmds == [] <==> toadd == [] && toremove == [])
    ensures forall c :: c in cmds ==> c.Call? && c.args != [] && c.args[0] == Str(id)
    ensures forall c :: c in cmds ==> c.name == "sadd" || c.name == "srem"
  {
    (if toadd != [] then [On("sadd", id, Strs(toadd))] else []) +
    (if toremove != [] then [On("srem", id, Strs(toremove))] else [])
  }

  /** A sorted set's flush: only ever `zadd` commands (see `ZsetFlushKeepsRemoved`). */
  function ZsetFlush(id: string, scored: seq<(Score, string)>, toremove: seq<string>): (cmds: seq<Command>)
    ensures |cmds| <= 2 && (cmds == [] <==> scored == [] && toremove == [])
    ensures forall c :: c in cmds ==> c.Call? && c.args != [] && c.args[0] == Str(id)
    ensures forall c :: c in cmds ==> c.name == "zadd"
  {
    (if scored != [] then [On("zadd", id, FlatScored(scored))] else []) +
    (if toremove != [] then [On("zadd", id, FlatScored(scored))] else [])
  }

  /** A list's flush: `lpush` of the front items, then `rpush` of the back items. */
  function ListFlush(id: string, front: seq<string>, back: seq<string>): (cmds: seq<Command>)
    ensures |cmds| <= 2 && (cmds == [] <==> front == [] && back == [])
    ensures forall c :: c in cmds ==> c.Call? && c.args != [] && c.args[0] == Str(id)
    ensures forall c :: c in cmds ==> c.name == "lpush" || c.name == "rpush"
  {
    (if front != [] then [On("lpush", id, Strs(front))] else []) +
    (if back != [] then [On("rpush", id, Strs(back))] else [])
  }

  /** A hash's flush: `hmset` of the new fields, then `hdel` of the removed ones. */
  function HashFlush(id: string, fields: seq<(string, string)>, toremove: seq<string>): (cmds: seq<Command>)
    ensures |cmds| <= 2 && (cmds == [] <==> fields == [] && toremove == [])
    ensures forall c :: c in cmds ==> c.Call? && c.args != [] && c.args[0] == Str(id)
    ensures forall c :: c in cmds ==> c.name == "hmset" || c.name == "hdel"
  {
    (if fields != [] then [On("hmset", id, Strs(FlatMapping(fields)))] else []) +
    (if toremove != [] then [On("hdel", id, Strs(toremove))] else [])
  }

  /** `flush_structure`: each instance of the session is flushed in turn onto the same
      pipe; an exception stops the loop, leaving the commands queued so far. */
  function FlushAll(structures: seq<Structure>): (r: Flushed)
    ensures r.raised.None? <==> forall i :: 0 <= i < |structures| ==> Flush(structures[i]).raised.None?
    ensures |r.commands| <= 2 * |structures|
    ensures forall k :: 0 <= k < |r.commands| ==> r.commands[k].Call?
  {
    if structures == [] then Flushed([], None)
    else
      var first := Flush(structures[0]);
      if first.raised.Some? then first
      else
        var rest := FlushAll(structures[1..]);
        Flushed(first.commands + rest.commands, rest.raised)
  }

  /** The commands of every structure's flush, in order, regardless of raises. */
  function FlushCommands(structures: seq<Structure>): seq<Command> {
    if structures == [] then [] else Flush(structures[0]).commands + FlushCommands(structures[1..])
  }

  /** When no flush raises, the pipe receives every structure's commands in order. */
  lemma {:induction false} FlushAllClean(structures: seq<Structure>)
    requires FlushAll(structures).raised.None?
    ensures FlushAll(structures).commands == FlushCommands(structures)
  {
    if structures != [] {
      FlushAllClean(structures[1..]);
    }
  }

  /** When the `k`-th flush is the first to raise, the pipe receives the commands of the
      flushes before it and the raising flush's own, and the flush stops there with that
      error. */
  lemma {:induction false} FlushAllRaises(structures: seq<Structure>, k: nat)
    requires k < |structures| && Flush(structures[k]).raised.Some?
    requires forall i :: 0 <= i < k ==> Flush(structures[i]).raised.None?
    ensures FlushAll(structures) ==
            Flushed(FlushCommands(structures[..k]) + Flush(structures[k]).commands, Flush(structures[k]).raised)
  {
    if k == 0 {
      assert structures[..0] == [];
    } else {
      var tail := structures[1..];
      forall i | 0 <= i < k - 1 ensures Flush(tail[i]).raised.None? {
        assert tail[i] == structures[i + 1];
      }
      assert tail[k - 1] == structures[k];
      FlushAllRaises(tail, k - 1);
      assert structures[..k][1..] == tail[..k - 1];
      assert FlushCommands(structures[..k]) == Flush(structures[0]).commands + FlushCommands(tail[..k - 1]);
      AppendAssoc(Flush(structures[0]).commands, FlushCommands(tail[..k - 1]), Flush(structures[k]).commands);
    }
  }

  /** `iteretor_pipelined`: a structure on a pipeline iterates over nothing. */
  function IterPipelined<T>(pipelined: bool, items: seq<T>): (r: seq<T>)
    ensures pipelined ==> r == []
    ensures !pipelined ==> r == items
  {
    if pipelined then [] else items
  }

  // ---------------------------------------------------------------------------------
  // What the queued commands do to the stored structure

  /** The strings among the arguments. */
  function Members(args: seq<Arg>): (r: set<string>)
    ensures forall x :: x in r <==> Str(x) in args
  {
    if args == [] then {} else (if args[0].Str? then {args[0].s} else {}) + Members(args[1..])
  }

  /** Redis' `SADD` and `SREM`, and `ZADD` on the members of a sorted set. */
  function ApplyToSet(state: set<string>, c: Command): set<string> {
    if !c.Call? || |c.args| == 0 then state
    else if c.name == "sadd" || c.name == "zadd" then state + Members(c.args[1..])
    else if c.name == "srem" then state - Members(c.args[1..])
    else state
  }

  function ApplyAllToSet(state: set<string>, cmds: seq<Command>): set<string>
    decreases |cmds|
  {
    if cmds == [] then state else ApplyAllToSet(ApplyToSet(state, cmds[0]), cmds[1..])
  }

  /** The elements of a list, as a set. */
  function Elems(xs: seq<string>): set<string> {
    set x | x in xs
  }

  lemma MembersStrs(xs: seq<string>)
    ensures Members(Strs(xs)) == Elems(xs)
  {
    forall x ensures x in Members(Strs(xs)) <==> x in xs {
      if x in xs {
        var i :| 0 <= i < |xs| && xs[i] == x;
        assert Strs(xs)[i] == Str(x);
      }
    }
  }

  function ScoredMembers(pairs: seq<(Score, string)>): set<string> {
    set i | 0 <= i < |pairs| :: pairs[i].1
  }

  lemma {:induction false} MembersFlatScored(pairs: seq<(Score, string)>)
    ensures Members(FlatScored(pairs)) == ScoredMembers(pairs)
  {
    if pairs != [] {
      MembersFlatScored(pairs[1..]);
      ScoredMembersCons(pairs);
      assert FlatScored(pairs) == [ScoreArg(pairs[0].0), Str(pairs[0].1)] + FlatScored(pairs[1..]);
      MembersScoredCons(pairs[0].0, pairs[0].1, FlatScored(pairs[1..]));
    }
  }

  lemma MembersScoredCons(score: Score, m: string, rest: seq<Arg>)
    ensures Members([ScoreArg(score), Str(m)] + rest) == {m} + Members(rest)
  {
    var args := [ScoreArg(score), Str(m)] + rest;
    forall x ensures x in Members(args) <==> x == m || x in Members(rest) {
      assert Str(x) in args <==> Str(x) == Str(m) || Str(x) in rest;
    }
  }

  lemma ScoredMembersCons(pairs: seq<(Score, string)>)
    requires pairs != []
    ensures ScoredMembers(pairs) == {pairs[0].1} + ScoredMembers(pairs[1..])
  {
    forall x ensures x in ScoredMembers(pairs) <==> x == pairs[0].1 || x in ScoredMembers(pairs[1..]) {
      if x in ScoredMembers(pairs) {
        var i :| 0 <= i < |pairs| && pairs[i].1 == x;
        if i > 0 { assert pairs[1..][i - 1].1 == x; }
      }
      if x in ScoredMembers(pairs[1..]) {
        var i :| 0 <= i < |pairs[1..]| && pairs[1..][i].1 == x;
        assert pairs[i + 1].1 == x;
      }
    }
  }

  lemma ApplyAllTwo(state: set<string>, c1: Command, c2: Command)
    ensures ApplyAllToSet(state, [c1]) == ApplyToSet(state, c1)
    ensures ApplyAllToSet(state, [c1, c2]) == ApplyToSet(ApplyToSet(state, c1), c2)
  {
    assert [c1][1..] == [] && [c1, c2][1..] == [c2];
    var once := ApplyToSet(state, c1);
    assert ApplyAllToSet(once, []) == once;
    assert ApplyAllToSet(once, [c2]) == ApplyAllToSet(ApplyToSet(once, c2), []);
  }

  lemma AddEffect(state: set<string>, name: string, id: string, xs: seq<string>)
    requires name == "sadd" || name == "zadd"
    ensures ApplyToSet(state, On(name, id, Strs(xs))) == state + Elems(xs)
  {
    MembersStrs(xs);
    assert On(name, id, Strs(xs)).args[1..] == Strs(xs);
  }

  lemma RemoveEffect(state: set<string>, id: string, xs: seq<string>)
    ensures ApplyToSet(state, On("srem", id, Strs(xs))) == state - Elems(xs)
  {
    MembersStrs(xs);
    assert On("srem", id, Strs(xs)).args[1..] == Strs(xs);
  }

  /** Flushing a set adds the pending members, then removes the pending removals. */
  lemma SetFlushEffect(state: set<string>, id: string, toadd: seq<string>, toremove: seq<string>)
    ensures ApplyAllToSet(state, Flush(SetS(id, toadd, toremove)).commands) ==
            (state + Elems(toadd)) - Elems(toremove)
  {
    assert Flush(SetS(id, toadd, toremove)).commands == SetFlush(id, toadd, toremove);
    if toadd == [] {
      assert Elems(toadd) == {};
      if toremove == [] {
        assert SetFlush(id, toadd, toremove) == [] && Elems(toremove) == {};
      } else {
        SetFlushRemoveOnly(state, id, toremove);
      }
    } else if toremove == [] {
      assert Elems(toremove) == {};
      SetFlushAddOnly(state, id, toadd);
    } else {
      SetFlushBoth(state, id, toadd, toremove);
    }
  }

  lemma SetFlushRemoveOnly(state: set<string>, id: string, toremove: seq<string>)
    requires toremove != []
    ensures ApplyAllToSet(state, SetFlush(id, [], toremove)) == state - Elems(toremove)
  {
    var rem := On("srem", id, Strs(toremove));
    assert SetFlush(id, [], toremove) == [rem];
    RemoveEffect(state, id, toremove);
    ApplyAllTwo(state, rem, rem);
  }

  lemma SetFlushAddOnly(state: set<string>, id: string, toadd: seq<string>)
    requires toadd != []
    ensures ApplyAllToSet(state, SetFlush(id, toadd, [])) == state + Elems(toadd)
  {
    var add := On("sadd", id, Strs(toadd));
    assert SetFlush(id, toadd, []) == [add];
    AddEffect(state, "sadd", id, toadd);
    ApplyAllTwo(state, add, add);
  }

  lemma SetFlushBoth(state: set<string>, id: string, toadd: seq<string>, toremove: seq<string>)
    requires toadd != [] && toremove != []
    ensures ApplyAllToSet(state, SetFlush(id, toadd, toremove)) == (state + Elems(toadd)) - Elems(toremove)
  {
    var add := On("sadd", id, Strs(toadd));
    var rem := On("srem", id, Strs(toremove));
    assert SetFlush(id, toadd, toremove) == [add, rem];
    AddEffect(state, "sadd", id, toadd);
    RemoveEffect(state + Elems(toadd), id, toremove);
    ApplyAllTwo(state, add, rem);
  }

  /** As written, flushing a sorted set never removes anything: members pending removal
      that are not re-added stay in the set. */
  lemma ZaddEffect(state: set<string>, id: string, scored: seq<(Score, string)>)
    ensures ApplyToSet(state, On("zadd", id, FlatScored(scored))) == state + ScoredMembers(scored)
  {
    MembersFlatScored(scored);
    assert On("zadd", id, FlatScored(scored)).args[1..] == FlatScored(scored);
  }

  lemma ZsetFlushKeepsRemoved(state: set<string>, id: string, scored: seq<(Score, string)>, toremove: seq<string>)
    ensures ApplyAllToSet(state, Flush(ZsetS(id, scored, toremove)).commands) == state + ScoredMembers(scored)
  {
    assert Flush(ZsetS(id, scored, toremove)).commands == ZsetFlush(id, scored, toremove);
    var add := On("zadd", id, FlatScored(scored));
    ZaddEffect(state, id, scored);
    if scored == [] && toremove == [] {
      assert ZsetFlush(id, scored, toremove) == [] && ScoredMembers(scored) == {};
    } else if scored == [] || toremove == [] {
      assert ZsetFlush(id, scored, toremove) == [add];
      ApplyAllTwo(state, add, add);
    } else {
      ZsetFlushTwice(state, id, scored, toremove);
    }
  }

  lemma ZsetFlushTwice(state: set<string>, id: string, scored: seq<(Score, string)>, toremove: seq<string>)
    requires scored != [] && toremove != []
    ensures ApplyAllToSet(state, ZsetFlush(id, scored, toremove)) == state + ScoredMembers(scored)
  {
    var add := On("zadd", id, FlatScored(scored));
    var added := ScoredMembers(scored);
    assert ZsetFlush(id, scored, toremove) == [add, add];
    ZaddEffect(state, id, scored);
    ZaddEffect(state + added, id, scored);
    assert state + added + added == state + added;
    ApplyAllTwo(state, add, add);
  }

  /** Redis' `LPUSH`, which pushes its values one by one onto the head, and `RPUSH`. */
  function ApplyToList(state: seq<string>, c: Command): seq<string> {
    if !c.Call? || |c.args| == 0 || !(forall i :: 1 <= i < |c.args| ==> c.args[i].Str?) then state
    else if c.name == "lpush" then Reverse(Texts(c.args[1..])) + state
    else if c.name == "rpush" then state + Texts(c.args[1..])
    else state
  }

  function Texts(args: seq<Arg>): seq<string>
    requires forall i :: 0 <= i < |args| ==> args[i].Str?
  {
    if args == [] then [] else [args[0].s] + Texts(args[1..])
  }

  function Reverse<T>(xs: seq<T>): (r: seq<T>)
    ensures |r| == |xs| && forall i :: 0 <= i < |xs| ==> r[i] == xs[|xs| - 1 - i]
  {
    if xs == [] then [] else Reverse(xs[1..]) + [xs[0]]
  }

  lemma {:induction false} TextsStrs(xs: seq<string>)
    ensures Texts(Strs(xs)) == xs
  {
    if xs != [] {
      TextsStrs(xs[1..]);
      assert Strs(xs)[1..] == Strs(xs[1..]);
      assert [xs[0]] + xs[1..] == xs;
    }
  }

  function ApplyAllToList(state: seq<string>, cmds: seq<Command>): seq<string>
    decreases |cmds|
  {
    if cmds == [] then state else ApplyAllToList(ApplyToList(state, cmds[0]), cmds[1..])
  }

  lemma ApplyAllToListTwo(state: seq<string>, c1: Command, c2: Command)
    ensures ApplyAllToList(state, [c1]) == ApplyToList(state, c1)
    ensures ApplyAllToList(state, [c1, c2]) == ApplyToList(ApplyToList(state, c1), c2)
  {
    assert [c1][1..] == [] && [c1, c2][1..] == [c2];
    var once := ApplyToList(state, c1);
    assert ApplyAllToList(once, []) == once;
    assert ApplyAllToList(once, [c2]) == ApplyAllToList(ApplyToList(once, c2), []);
  }

  lemma PushEffect(state: seq<string>, id: string, xs: seq<string>)
    ensures ApplyToList(state, On("lpush", id, Strs(xs))) == Reverse(xs) + state
    ensures ApplyToList(state, On("rpush", id, Strs(xs))) == state + xs
  {
    PushApply(state, "lpush", id, xs);
    PushApply(state, "rpush", id, xs);
  }

  lemma PushApply(state: seq<string>, name: string, id: string, xs: seq<string>)
    requires name == "lpush" || name == "rpush"
    ensures ApplyToList(state, On(name, id, Strs(xs))) ==
              if name == "lpush" then Reverse(xs) + state else state + xs
  {
    var c := On(name, id, Strs(xs));
    AllStr(id, xs);
    assert c.args[1..] == Strs(xs);
    TextsStrs(xs);
  }

  /** Flushing a list puts the front items, last pushed first, before the stored list
      and the back items after it. */
  lemma ListFlushEffect(state: seq<string>, id: string, front: seq<string>, back: seq<string>)
    ensures ApplyAllToList(state, Flush(ListS(id, front, back)).commands) == Reverse(front) + state + back
  {
    var l := On("lpush", id, Strs(front));
    var r := On("rpush", id, Strs(back));
    var cmds := ListFlush(id, front, back);
    assert Flush(ListS(id, front, back)).commands == cmds;
    PushEffect(state, id, front);
    PushEffect(state, id, back);
    PushEffect(Reverse(front) + state, id, back);
    if front == [] {
      assert Reverse(front) + state == state;
      ApplyAllToListTwo(state, r, r);
      if back == [] { assert cmds == [] && state + back == state; } else { assert cmds == [r]; }
    } else if back == [] {
      assert cmds == [l] && Reverse(front) + state + back == Reverse(front) + state;
      ApplyAllToListTwo(state, l, l);
    } else {
      assert cmds == [l, r];
      ApplyAllToListTwo(state, l, r);
    }
  }

  /** Redis' `HMSET` with a flat list of fields and values, and `HDEL`. */
  function ApplyToHash(state: map<string, string>, c: Command): map<string, string> {
    if !c.Call? || |c.args| == 0 || !(forall i :: 1 <= i < |c.args| ==> c.args[i].Str?) then state
    else if c.name == "hmset" then state + PairsToDict(Texts(c.args[1..]))
    else if c.name == "hdel" then state - Members(c.args[1..])
    else state
  }

  function ApplyAllToHash(state: map<string, string>, cmds: seq<Command>): map<string, string>
    decreases |cmds|
  {
    if cmds == [] then state else ApplyAllToHash(ApplyToHash(state, cmds[0]), cmds[1..])
  }

  lemma ApplyAllToHashTwo(state: map<string, string>, c1: Command, c2: Command)
    ensures ApplyAllToHash(state, [c1]) == ApplyToHash(state, c1)
    ensures ApplyAllToHash(state, [c1, c2]) == ApplyToHash(ApplyToHash(state, c1), c2)
  {
    assert [c1][1..] == [] && [c1, c2][1..] == [c2];
    var once := ApplyToHash(state, c1);
    assert ApplyAllToHash(once, []) == once;
    assert ApplyAllToHash(once, [c2]) == ApplyAllToHash(ApplyToHash(once, c2), []);
  }

  lemma HmsetEffect(state: map<string, string>, id: string, fields: seq<(string, string)>)
    ensures ApplyToHash(state, On("hmset", id, Strs(FlatMapping(fields)))) == state + ZipMap(Firsts(fields), Seconds(fields))
  {
    var flat := FlatMapping(fields);
    var c := On("hmset", id, Strs(flat));
    AllStr(id, flat);
    HmsetApply(state, c);
    HmsetTexts(id, flat);
    PairsFlatMapping(fields);
  }

  lemma HmsetApply(state: map<string, string>, c: Command)
    requires c.Call? && c.name == "hmset" && |c.args| > 0 && forall i :: 1 <= i < |c.args| ==> c.args[i].Str?
    ensures ApplyToHash(state, c) == state + PairsToDict(Texts(c.args[1..]))
  {
  }

  lemma HmsetTexts(id: string, flat: seq<string>)
    ensures Texts(On("hmset", id, Strs(flat)).args[1..]) == flat
  {
    assert On("hmset", id, Strs(flat)).args[1..] == Strs(flat);
    TextsStrs(flat);
  }

  lemma AllStr(id: string, xs: seq<string>)
    ensures forall i :: 1 <= i < |[Str(id)] + Strs(xs)| ==> ([Str(id)] + Strs(xs))[i].Str?
  {
    var args := [Str(id)] + Strs(xs);
    forall i | 1 <= i < |args| ensures args[i].Str? {
      assert args[i] == Strs(xs)[i - 1];
    }
  }

  lemma HdelEffect(state: map<string, string>, id: string, xs: seq<string>)
    ensures ApplyToHash(state, On("hdel", id, Strs(xs))) == state - Elems(xs)
  {
    var c := On("hdel", id, Strs(xs));
    AllStr(id, xs);
    HdelApply(state, c);
    assert c.args[1..] == Strs(xs);
    MembersStrs(xs);
  }

  lemma HdelApply(state: map<string, string>, c: Command)
    requires c.Call? && c.name == "hdel" && |c.args| > 0 && forall i :: 1 <= i < |c.args| ==> c.args[i].Str?
    ensures ApplyToHash(state, c) == state - Members(c.args[1..])
  {
  }

  /** Flushing a hash sets the pending fields, then deletes the pending removals. */
  lemma HashFlushEffect(state: map<string, string>, id: string, fields: seq<(string, string)>, toremove: seq<string>)
    ensures ApplyAllToHash(state, Flush(HashS(id, fields, toremove)).commands) ==
            (state + ZipMap(Firsts(fields), Seconds(fields))) - Elems(toremove)
  {
    assert Flush(HashS(id, fields, toremove)).commands == HashFlush(id, fields, toremove);
    if fields == [] {
      HashOnlyRemove(state, id, fields, toremove);
    } else if toremove == [] {
      HashOnlyAdd(state, id, fields, toremove);
    } else {
      HashBoth(state, id, fields, toremove);
    }
  }

  lemma HashOnlyRemove(state: map<string, string>, id: string, fields: seq<(string, string)>, toremove: seq<string>)
    requires fields == []
    ensures ApplyAllToHash(state, HashFlush(id, fields, toremove)) ==
            (state + ZipMap(Firsts(fields), Seconds(fields))) - Elems(toremove)
  {
    var d := On("hdel", id, Strs(toremove));
    assert state + ZipMap(Firsts(fields), Seconds(fields)) == state by {
      assert Firsts(fields) == [];
      assert ZipMap(Firsts(fields), Seconds(fields)) == map[];
    }
    HdelEffect(state, id, toremove);
    ApplyAllToHashTwo(state, d, d);
    if toremove == [] {
      assert Elems(toremove) == {};
      assert state - {} == state;
      assert HashFlush(id, fields, toremove) == [];
    } else {
      assert HashFlush(id, fields, toremove) == [d];
    }
  }

  lemma HashOnlyAdd(state: map<string, string>, id: string, fields: seq<(string, string)>, toremove: seq<string>)
    requires fields != [] && toremove == []
    ensures ApplyAllToHash(state, HashFlush(id, fields, toremove)) ==
            (state + ZipMap(Firsts(fields), Seconds(fields))) - Elems(toremove)
  {
    var h := On("hmset", id, Strs(FlatMapping(fields)));
    var added := state + ZipMap(Firsts(fields), Seconds(fields));
    HmsetEffect(state, id, fields);
    assert Elems(toremove) == {};
    assert added - {} == added;
    assert HashFlush(id, fields, toremove) == [h];
    ApplyAllToHashTwo(state, h, h);
  }

  lemma HashBoth(state: map<string, string>, id: string, fields: seq<(string, string)>, toremove: seq<string>)
    requires fields != [] && toremove != []
    ensures ApplyAllToHash(state, HashFlush(id, fields, toremove)) ==
            (state + ZipMap(Firsts(fields), Seconds(fields))) - Elems(toremove)
  {
    var h := On("hmset", id, Strs(FlatMapping(fields)));
    var d := On("hdel", id, Strs(toremove));
    var added := state + ZipMap(Firsts(fields), Seconds(fields));
    assert HashFlush(id, fields, toremove) == [h, d];
    HmsetEffect(state, id, fields);
    HdelEffect(added, id, toremove);
    ApplyTwoSteps(state, h, d, added, Elems(toremove));
  }

  lemma ApplyTwoSteps(state: map<string, string>, h: Command, d: Command, added: map<string, string>, r: set<string>)
    requires ApplyToHash(state, h) == added
    requires ApplyToHash(added, d) == added - r
    ensures ApplyAllToHash(state, [h, d]) == added - r
  {
    ApplyAllToHashTwo(state, h, d);
  }
}
