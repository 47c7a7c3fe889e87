/** The arguments `RedisQuery._items` hands the `load_query` script: the slice turned
    into an inclusive Redis range (`get_redis_slice`), the window of an explicitly
    sorted query, the sort arguments of `order`, the related-field arguments of
    `related_lua_args`; and the rows `load_query.build` makes of its reply. */
module QueryArgs {
  import opened Wrappers
  import opened Models
  import opened Keys
  import opened Commands
  import opened Mappings

  // ---------------------------------------------------------------------------------
  // Slices

  /** A Python slice with step 1; `None` stands for an omitted bound. */
  datatype Slice = Slice(start: Option<int>, stop: Option<int>)

  /** `x or d` on an optional integer: `None` and `0` are false. */
  function OrDefault(x: Option<int>, d: int): int {
    if x.Some? && x.value != 0 then x.value else d
  }

  /** `get_redis_slice`: `(0, -1)` without a slice; otherwise a missing or zero start is
      0, a missing or zero stop is -1, and a positive stop is made inclusive. */
  function GetRedisSlice(s: Option<Slice>): (r: (int, int))
    ensures s.None? ==> r == (0, -1)
    ensures s.Some? ==> r.0 == OrDefault(s.value.start, 0)
    ensures s.Some? && OrDefault(s.value.stop, -1) > 0 ==> r.1 == s.value.stop.value - 1
    ensures s.Some? && OrDefault(s.value.stop, -1) <= 0 ==> r.1 == OrDefault(s.value.stop, -1)
  {
    if s.Some? then
      var start := OrDefault(s.value.start, 0);
      var stop := OrDefault(s.value.stop, -1);
      if stop > 0 then (start, stop - 1) else (start, stop)
    else (0, -1)
  }

  function Max(a: int, b: int): int { if a >= b then a else b }
  function MinInt(a: int, b: int): int { if a <= b then a else b }

  /** Python's `xs[start:stop]`: negative bounds count from the end, and bounds are
      clamped to the list. */
  function PySlice<T>(xs: seq<T>, s: Slice): seq<T> {
    var n := |xs|;
    var a := match s.start case None => 0 case Some(i) => if i < 0 then Max(0, i + n) else MinInt(i, n);
    var b := match s.stop case None => n case Some(j) => if j < 0 then Max(0, j + n) else MinInt(j, n);
    if a < b then xs[a..b] else []
  }

  /** The inclusive range `start..stop` of Redis' `LRANGE`/`ZRANGE`: negative indices
      count from the end, a stop past the end means the last element, and a start past
      the stop or the end gives nothing. */
  function RedisRange<T>(xs: seq<T>, start: int, stop: int): seq<T> {
    var n := |xs|;
    var a := if start < 0 then Max(0, start + n) else start;
    var b := MinInt(if stop < 0 then stop + n else stop, n - 1);
    if a > b || a >= n then [] else xs[a..b + 1]
  }

  /** The Redis range `get_redis_slice` computes selects what Python's slice selects,
      whenever the stop is omitted or positive. */
  lemma SliceAgrees<T>(xs: seq<T>, s: Option<Slice>)
    requires s.Some? ==> s.value.stop.None? || s.value.stop.value > 0
    ensures var (start, stop) := GetRedisSlice(s);
            RedisRange(xs, start, stop) == PySlice(xs, if s.Some? then s.value else Slice(None, None))
  {
    if s.Some? {
      var start := OrDefault(s.value.start, 0);
      if s.value.stop.None? {
        assert GetRedisSlice(s) == (start, -1);
      } else {
        assert GetRedisSlice(s) == (start, s.value.stop.value - 1);
      }
    }
  }

  /** A zero or negative stop is not translated: where Python's slice leaves out the
      tail, the Redis range keeps it. */
  lemma StopNotPositive<T>(xs: seq<T>, stop: int)
    requires xs != [] && -1 <= stop <= 0
    ensures RedisRange(xs, GetRedisSlice(Some(Slice(None, Some(stop)))).0, GetRedisSlice(Some(Slice(None, Some(stop)))).1) == xs
    ensures PySlice(xs, Slice(None, Some(stop))) == xs[..|xs| + stop - (if stop == 0 then |xs| else 0)]
    ensures PySlice(xs, Slice(None, Some(stop))) != xs
  {
  }

  /** A negative stop is passed through unchanged, and Redis' range includes it: the
      Redis range keeps one element more than Python's slice. */
  lemma NegativeStopKeepsOneMore<T>(xs: seq<T>, stop: int)
    requires stop < 0 && -stop <= |xs|
    ensures GetRedisSlice(Some(Slice(None, Some(stop)))) == (0, stop)
    ensures RedisRange(xs, 0, stop) == xs[..|xs| + stop + 1]
    ensures PySlice(xs, Slice(None, Some(stop))) == xs[..|xs| + stop]
  {
  }

  // ---------------------------------------------------------------------------------
  // The window of `_items`

  /** The `(name, start, stop)` triple `_items` passes on. With sort arguments the range
      becomes `start` and a length: an open stop after a non-zero start is first
      resolved with the query's `count`, then any stop other than -1 is turned into the
      number of elements from `start` to it. Without sort arguments the name is the
      model's own direction, or empty for an unordered model. */
  function Window(explicit: bool, ordering: Option<Ordering>, start: int, stop: int, count: int): (r: (string, int, int))
    ensures r.1 == start
    ensures explicit ==> r.0 == "explicit"
    ensures !explicit ==> r.2 == stop && r.0 == (if ordering.None? then "" else if ordering.value.desc then "DESC" else "ASC")
  {
    if explicit then
      var stop1 := if start != 0 && stop == -1 then count - 1 else stop;
      var stop2 := if stop1 != -1 then stop1 - start + 1 else stop1;
      ("explicit", start, stop2)
    else
      ("" + (if ordering.None? then "" else if ordering.value.desc then "DESC" else "ASC"), start, stop)
  }

  /** With explicit sorting the window's last component is the number of elements of
      the Redis range it came from, or -1 for the whole result. */
  lemma ExplicitWindowIsLength<T>(xs: seq<T>, ordering: Option<Ordering>, start: int, stop: int)
    requires 0 <= start <= |xs|
    requires stop == -1 || start - 1 <= stop < |xs|
    ensures var r := Window(true, ordering, start, stop, |xs|);
            (r.2 == -1 ==> RedisRange(xs, start, stop) == xs) &&
            (r.2 != -1 ==> r.2 == |RedisRange(xs, start, stop)|)
  {
  }

  // ---------------------------------------------------------------------------------
  // Sort arguments

  /** A hop of a nested ordering: the related model's metadata, the field name, and
      whether that field is a text field. */
  datatype Hop = Hop(meta: Meta, name: string, text: bool)

  /** The query's ordering: field, direction, whether the field is text, and the chain
      of nested orderings through related models. */
  datatype SortBy = SortBy(name: string, desc: bool, text: bool, nested: seq<Hop>)

  /** Whether the last field of the chain is a text field. */
  function LastText(s: SortBy): bool {
    if s.nested == [] then s.text else s.nested[|s.nested| - 1].text
  }

  /** `order`: nothing without an ordering; otherwise the field, `ALPHA` when the last
      field of the chain is text, `DESC` for a descending order, the number of hops and
      a (model key, field) pair per hop. */
  method Order(ns: string, o: Option<SortBy>) returns (r: Option<seq<Arg>>)
    ensures r.None? <==> o.None?
    ensures o.Some? ==>
              var s := o.value;
              |r.value| == 4 + 2 * |s.nested| &&
              r.value[..4] == [Str(s.name), Str(if LastText(s) then "ALPHA" else ""),
                               Str(if s.desc then "DESC" else ""), Num(|s.nested|)] &&
              forall i :: 0 <= i < |s.nested| ==>
                r.value[4 + 2 * i] == Str(ModelKey(ns, s.nested[i].meta)) &&
                r.value[5 + 2 * i] == Str(s.nested[i].name)
  {
    if o.None? {
      return None;
    }
    var s := o.value;
    var nestedArgs: seq<Arg> := [];
    var text := s.text;
    var i := 0;
    while i < |s.nested|
      invariant 0 <= i <= |s.nested|
      invariant |nestedArgs| == 2 * i
      invariant text == if i == 0 then s.text else s.nested[i - 1].text
      invariant forall k :: 0 <= k < i ==>
                  nestedArgs[2 * k] == Str(ModelKey(ns, s.nested[k].meta)) &&
                  nestedArgs[2 * k + 1] == Str(s.nested[k].name)
    {
      nestedArgs := nestedArgs + [Str(ModelKey(ns, s.nested[i].meta)), Str(s.nested[i].name)];
      text := s.nested[i].text;
      i := i + 1;
    }
    var meth := if text then "ALPHA" else "";
    var desc := if s.desc then "DESC" else "";
    r := Some([Str(s.name), Str(meth), Str(desc), Num(|nestedArgs| / 2)] + nestedArgs);
  }

  // ---------------------------------------------------------------------------------
  // Related fields

  /** An entry of `select_related`: the field's name and attribute name, whether it is
      a structure field, the related model if any, and the fields to load. */
  datatype Related = Related(name: string, attname: string, structure: bool, relmodel: Option<Meta>, fields: seq<string>)

  /** What the script reads back for an entry. */
  datatype RelatedArg = RelatedArg(basekey: string, name: string, attname: string, kind: string, fields: seq<string>)

  function View(ns: string, r: Related): RelatedArg {
    RelatedArg(if r.relmodel.Some? then ModelKey(ns, r.relmodel.value) else "",
               r.name, r.attname, if r.structure then "structure" else "", r.fields)
  }

  /** `related_lua_args`: `0` without related fields; otherwise their number, then per
      entry the related model key (or `''`), name, attribute name, `structure` (or `''`),
      the number of fields and the fields. */
  function RelatedLuaArgs(ns: string, related: seq<Related>): (args: seq<Arg>)
    ensures |args| >= 1 && args[0] == Num(|related|)
    ensures related == [] ==> args == [Num(0)]
  {
    if related == [] then [Num(0)] else [Num(|related|)] + RelatedEntries(ns, related)
  }

  function RelatedEntries(ns: string, related: seq<Related>): seq<Arg> {
    if related == [] then []
    else
      var v := View(ns, related[0]);
      [Str(v.basekey), Str(v.name), Str(v.attname), Str(v.kind), Num(|v.fields|)] + Strs(v.fields) +
      RelatedEntries(ns, related[1..])
  }

  /** Reading the arguments as the script does: a count, then that many entries, and
      nothing after them. */
  function DecodeRelated(args: seq<Arg>): Option<seq<RelatedArg>> {
    if |args| >= 1 && args[0].Num? && args[0].n >= 0 then
      match ReadEntries(args[1..], args[0].n)
      case Some((views, after)) => if after == [] then Some(views) else None
      case None => None
    else None
  }

  /** Reads `n` entries from the front of `args` and returns them with the arguments
      that follow: per entry four strings, a field count and that many field names. */
  function ReadEntries(args: seq<Arg>, n: nat): Option<(seq<RelatedArg>, seq<Arg>)>
    decreases n
  {
    if n == 0 then Some(([], args))
    else if |args| < 5 || !(args[0].Str? && args[1].Str? && args[2].Str? && args[3].Str? && args[4].Num?) then None
    else
      var k := args[4].n;
      if k < 0 || 5 + k > |args| then None
      else
        match UnStrs(args[5..5 + k])
        case None => None
        case Some(fields) =>
          match ReadEntries(args[5 + k..], n - 1)
          case None => None
          case Some((rest, after)) => Some(([RelatedArg(args[0].s, args[1].s, args[2].s, args[3].s, fields)] + rest, after))
  }

  function UnStrs(args: seq<Arg>): Option<seq<string>> {
    if args == [] then Some([])
    else if !args[0].Str? then None
    else match UnStrs(args[1..]) case None => None case Some(rest) => Some([args[0].s] + rest)
  }

  lemma {:induction false} UnStrsStrs(ss: seq<string>)
    ensures UnStrs(Strs(ss)) == Some(ss)
  {
    if ss != [] {
      UnStrsStrs(ss[1..]);
      StrsTail(ss);
      UnStrsStep(Strs(ss), ss[0], ss[1..]);
      assert [ss[0]] + ss[1..] == ss;
    }
  }

  lemma StrsTail(ss: seq<string>)
    requires ss != []
    ensures Strs(ss)[0] == Str(ss[0]) && Strs(ss)[1..] == Strs(ss[1..])
  {
  }

  lemma UnStrsStep(a: seq<Arg>, s: string, rest: seq<string>)
    requires a != [] && a[0] == Str(s) && UnStrs(a[1..]) == Some(rest)
    ensures UnStrs(a) == Some([s] + rest)
  {
  }

  function Views(ns: string, related: seq<Related>): (r: seq<RelatedArg>)
    ensures |r| == |related| && forall i :: 0 <= i < |related| ==> r[i] == View(ns, related[i])
  {
    if related == [] then [] else [View(ns, related[0])] + Views(ns, related[1..])
  }

  /** The script reads back exactly the entries, in order. */
  lemma RelatedRoundTrip(ns: string, related: seq<Related>)
    ensures DecodeRelated(RelatedLuaArgs(ns, related)) == Some(Views(ns, related))
  {
    RelatedArgsRead(ns, related, []);
    assert RelatedLuaArgs(ns, related) + [] == RelatedLuaArgs(ns, related);
  }

  /** The related-field arguments, whatever follows them, read back as the entries'
      views and leave the following arguments untouched. */
  lemma RelatedArgsRead(ns: string, related: seq<Related>, tail: seq<Arg>)
    ensures var args := RelatedLuaArgs(ns, related) + tail;
            args[0] == Num(|related|) && ReadEntries(args[1..], |related|) == Some((Views(ns, related), tail))
  {
    var entries := RelatedEntries(ns, related);
    assert RelatedLuaArgs(ns, related) == [Num(|related|)] + entries;
    AppendAssoc([Num(|related|)], entries, tail);
    assert ([Num(|related|)] + (entries + tail))[1..] == entries + tail;
    EntriesRoundTrip(ns, related, tail);
  }

  lemma {:induction false} EntriesRoundTrip(ns: string, related: seq<Related>, tail: seq<Arg>)
    ensures ReadEntries(RelatedEntries(ns, related) + tail, |related|) == Some((Views(ns, related), tail))
  {
    if related == [] {
      assert RelatedEntries(ns, related) + tail == tail;
    } else {
      var v := View(ns, related[0]);
      var rest := RelatedEntries(ns, related[1..]);
      var others := Views(ns, related[1..]);
      EntriesRoundTrip(ns, related[1..], tail);
      ReadEntriesCons(v, rest + tail, others, tail, |related|);
      RelatedEntriesCons(ns, related, tail);
    }
  }

  lemma RelatedEntriesCons(ns: string, related: seq<Related>, tail: seq<Arg>)
    requires related != []
    ensures var v := View(ns, related[0]);
            RelatedEntries(ns, related) + tail == EntryHead(v) + Strs(v.fields) + (RelatedEntries(ns, related[1..]) + tail) &&
            Views(ns, related) == [v] + Views(ns, related[1..])
  {
    var v := View(ns, related[0]);
    var h := EntryHead(v) + Strs(v.fields);
    var r := RelatedEntries(ns, related[1..]);
    assert RelatedEntries(ns, related) == h + r;
    AppendAssoc(h, r, tail);
  }

  /** The five arguments that open an entry. */
  function EntryHead(v: RelatedArg): seq<Arg> {
    [Str(v.basekey), Str(v.name), Str(v.attname), Str(v.kind), Num(|v.fields|)]
  }

  lemma ReadEntriesCons(v: RelatedArg, rest: seq<Arg>, others: seq<RelatedArg>, after: seq<Arg>, n: nat)
    requires n > 0 && ReadEntries(rest, n - 1) == Some((others, after))
    ensures ReadEntries(EntryHead(v) + Strs(v.fields) + rest, n) == Some(([v] + others, after))
  {
    var args := EntryHead(v) + Strs(v.fields) + rest;
    var k := |v.fields|;
    assert args[..5] == EntryHead(v);
    assert args[5..5 + k] == Strs(v.fields);
    assert args[5 + k..] == rest;
    UnStrsStrs(v.fields);
  }

  // ---------------------------------------------------------------------------------
  // The load_query arguments and rows

  /** The arguments of the `load_query` call `_items` queues: query key, model key, the
      fields to load with their count, the related-field arguments, the window and the
      sort arguments. `count` stands for `execute_query()`, consulted only when the
      window needs it. */
  function ItemsArgs(ns: string, queryKey: string, meta: Meta, attributes: seq<string>, related: seq<Related>,
                     order: Option<seq<Arg>>, slice: Option<Slice>, count: int): (args: seq<Arg>)
    ensures |args| >= 6 + |attributes|
    ensures args[0] == Str(queryKey) && args[2] == Num(|attributes|)
  {
    var w := Window(order.Some?, meta.ordering, GetRedisSlice(slice).0, GetRedisSlice(slice).1, count);
    [Str(queryKey), Str(ModelKey(ns, meta)), Num(|attributes|)] +
      (Strs(attributes) + (RelatedLuaArgs(ns, related) + ([Str(w.0), Num(w.1), Num(w.2)] + (if order.Some? then order.value else []))))
  }

  /** What the script reads from the `load_query` arguments. */
  datatype ItemsView = ItemsView(queryKey: string, modelKey: string, fields: seq<string>, related: seq<RelatedArg>,
                                 window: string, start: int, stop: int, sort: seq<Arg>)

  /** Reading the `load_query` arguments front to back: two keys, a field count and the
      field names, the related-field arguments, the window's name, start and stop, and
      whatever remains as the sort arguments. */
  function DecodeItemsArgs(args: seq<Arg>): Option<ItemsView> {
    if |args| < 3 || !args[0].Str? || !args[1].Str? || !args[2].Num? || args[2].n < 0 || 3 + args[2].n > |args| then None
    else
      match UnStrs(args[3..3 + args[2].n])
      case None => None
      case Some(fields) => DecodeItemsTail(args[0].s, args[1].s, fields, args[3 + args[2].n..])
  }

  function DecodeItemsTail(queryKey: string, modelKey: string, fields: seq<string>, args: seq<Arg>): Option<ItemsView> {
    if |args| < 1 || !args[0].Num? || args[0].n < 0 then None
    else
      match ReadEntries(args[1..], args[0].n)
      case None => None
      case Some((views, w)) =>
        if |w| < 3 || !w[0].Str? || !w[1].Num? || !w[2].Num? then None
        else Some(ItemsView(queryKey, modelKey, fields, views, w[0].s, w[1].n, w[2].n, w[3..]))
  }

  /** The script reads back every part `_items` packed: the two keys, the fields to
      load, the related fields' views, the window (whose start is the slice's start) and
      the sort arguments. */
  lemma ItemsArgsRoundTrip(ns: string, queryKey: string, meta: Meta, attributes: seq<string>, related: seq<Related>,
                           order: Option<seq<Arg>>, slice: Option<Slice>, count: int)
    ensures var w := Window(order.Some?, meta.ordering, GetRedisSlice(slice).0, GetRedisSlice(slice).1, count);
            DecodeItemsArgs(ItemsArgs(ns, queryKey, meta, attributes, related, order, slice, count)) ==
              Some(ItemsView(queryKey, ModelKey(ns, meta), attributes, Views(ns, related),
                             w.0, GetRedisSlice(slice).0, w.2, if order.Some? then order.value else []))
  {
    var w := Window(order.Some?, meta.ordering, GetRedisSlice(slice).0, GetRedisSlice(slice).1, count);
    var sort := if order.Some? then order.value else [];
    var tail := [Str(w.0), Num(w.1), Num(w.2)] + sort;
    AppendAssoc([Str(queryKey), Str(ModelKey(ns, meta)), Num(|attributes|)], Strs(attributes), RelatedLuaArgs(ns, related) + tail);
    ItemsHeadRead(queryKey, ModelKey(ns, meta), attributes, RelatedLuaArgs(ns, related) + tail);
    ItemsTailRead(ns, queryKey, ModelKey(ns, meta), attributes, related, w.0, w.1, w.2, sort);
  }

  lemma ItemsHeadRead(queryKey: string, modelKey: string, fields: seq<string>, rest: seq<Arg>)
    ensures DecodeItemsArgs([Str(queryKey), Str(modelKey), Num(|fields|)] + Strs(fields) + rest) ==
            DecodeItemsTail(queryKey, modelKey, fields, rest)
  {
    var args := [Str(queryKey), Str(modelKey), Num(|fields|)] + Strs(fields) + rest;
    assert args[3..3 + |fields|] == Strs(fields);
    assert args[3 + |fields|..] == rest;
    UnStrsStrs(fields);
  }

  lemma ItemsTailRead(ns: string, queryKey: string, modelKey: string, fields: seq<string>, related: seq<Related>,
                      name: string, start: int, stop: int, sort: seq<Arg>)
    ensures DecodeItemsTail(queryKey, modelKey, fields, RelatedLuaArgs(ns, related) + ([Str(name), Num(start), Num(stop)] + sort)) ==
            Some(ItemsView(queryKey, modelKey, fields, Views(ns, related), name, start, stop, sort))
  {
    var tail := [Str(name), Num(start), Num(stop)] + sort;
    RelatedArgsRead(ns, related, tail);
    assert tail[3..] == sort;
  }

  /** The script's reply: a list of ids, or a list of (id, field data) rows. */
  datatype Response = Ids(ids: seq<string>) | Rows(rows: seq<(string, seq<string>)>)

  /** A row as `build` yields it: id, the requested fields (`None` for all), field data. */
  datatype Loaded = Loaded(id: string, fields: Option<seq<string>>, data: map<string, string>)

  /** `load_query.build`: with only `id` requested, one empty row per id; with other
      fields, each row's data zipped with the field attributes; with no fields, each
      row's flat data read as pairs. A reply whose shape does not match the request is
      `None`. */
  function LoadBuild(response: Response, fields: seq<string>, attributes: seq<string>): (r: Option<seq<Loaded>>)
    ensures r.Some? <==> (fields == ["id"] <==> response.Ids?)
    ensures r.Some? && response.Ids? ==>
              |r.value| == |response.ids| &&
              forall i :: 0 <= i < |r.value| ==> r.value[i] == Loaded(response.ids[i], Some([]), map[])
    ensures r.Some? && response.Rows? ==>
              |r.value| == |response.rows| &&
              forall i :: 0 <= i < |r.value| ==>
                r.value[i].id == response.rows[i].0 &&
                r.value[i].fields == (if fields == [] then None else Some(fields)) &&
                (fields != [] ==> r.value[i].data == ZipMap(attributes, response.rows[i].1)) &&
                (fields == [] ==> r.value[i].data == PairsToDict(response.rows[i].1))
  {
    if fields == ["id"] then
      if response.Ids? then Some(seq(|response.ids|, i requires 0 <= i < |response.ids| => Loaded(response.ids[i], Some([]), map[])))
      else None
    else if response.Ids? then None
    else if fields != [] then
      Some(seq(|response.rows|, i requires 0 <= i < |response.rows| =>
        Loaded(response.rows[i].0, Some(fields), ZipMap(attributes, response.rows[i].1))))
    else
      Some(seq(|response.rows|, i requires 0 <= i < |response.rows| =>
        Loaded(response.rows[i].0, None, PairsToDict(response.rows[i].1))))
  }

  /** With distinct attribute names, a loaded row maps each attribute to the reply's
      value at its position. */
  lemma LoadBuildFields(response: Response, fields: seq<string>, attributes: seq<string>, i: nat, a: nat)
    requires fields != [] && fields != ["id"] && response.Rows?
    requires i < |response.rows| && a < |attributes| && a < |response.rows[i].1|
    requires forall x, y :: 0 <= x < y < |attributes| ==> attributes[x] != attributes[y]
    ensures var r := LoadBuild(response, fields, attributes).value[i];
            attributes[a] in r.data && r.data[attributes[a]] == response.rows[i].1[a]
  {
    ZipMapLookup(attributes, response.rows[i].1, a);
  }
}
