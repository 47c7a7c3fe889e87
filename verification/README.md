# python-stdnet Redis backend, modelled in Dafny

This project models the deterministic core of python-stdnet's Redis backend:

- the RESP2 wire codec and the connection policy of `stdnet/lib/connection.py`;
- the commands the backend queues into a Redis pipeline in `stdnet/backends/redisb.py`:
  - key naming;
  - the query-tree compiler;
  - the slice, window and sort arguments of `load_query`;
  - structure flushes;
  - session commits;
  - the delete cascade;
  - the filtering of pipeline results;
- the execute-once memo of `BackendQuery` in `stdnet/utils/async.py`;
- the text splitting and query fan-out of the search engine in `stdnet/apps/searchengine/__init__.py`;
- the simple value encoders of `stdnet/utils/encoders.py`.

Everything is a pure function over immutable datatypes.

- A pipeline is a growing list of `Command` records: a client call, or an opaque Lua `Script` call with the script's name and its arguments.
- The socket is a scripted `Net` oracle. It holds the outcomes of connection attempts and writes, plus the bytes the server sends.
- Compilation threads a draw number `next` through in place of `gen_unique_id`. The model assumes only that ids never repeat: draw `n` stands for the id `n`.
- What the backend's server-side calls return is passed in as a parameter. This covers `pipe.execute()`, `_execute_query`, `_has` and `_items`.

Modules follow the source:

| module | file | models |
|---|---|---|
| `Bytes` | bytes.dfy | byte strings and decimal integers on the wire |
| `Utf8` | utf8.dfy | strict UTF-8 |
| `Encoders` | encoders.dfy | the encoders |
| `Resp` | resp.dfy | `PythonParser.read_response` and `pack_command` |
| `RespExamples` | resp_examples.dfy | the parser's test replies, byte by byte |
| `Connection` | connection.dfy | `Connection` |
| `Models` | models.dfy | model metadata |
| `Keys` | keys.dfy | `basekey`, `tempkey` |
| `Commands` | commands.dfy | pipeline records, `redis_execution` |
| `Query` | query.dfy | `accumulate`, `_build`, `_execute_query` |
| `QueryArgs` | query_args.dfy | `get_redis_slice`, `_items`, `order`, `related_lua_args`, `load_query.build` |
| `Mappings` | mappings.dfy | `flat_mapping`, `pairs_to_dict`, `dict(zip(...))` |
| `Structures` | structures.dfy | structure flushes |
| `Session` | session.dfy | `flat_indices`, `execute_session`, `accumulate_delete` |
| `BackendQueries` | backend_query.dfy | `BackendQuery` |
| `Search` | search.dfy | the search engine |

## Quirks of the code, modelled as written

- `Zset.flush` re-adds `toadd` in its remove branch, so removed members are never removed (`Structures.ZsetFlushKeepsRemoved`).
- `_build` picks the count method crosswise: `scard` for an ordered model and `zcard` for an unordered one. Only `_execute_query` pairs the families consistently (`Query.CardCrosswise`).
- `lua_data` is created once per session, not once per unit. Each `commit_session` call therefore carries the arguments of every earlier one as a prefix (`Session.CommitArgsAccumulate`).
- A `-NOSCRIPT ...` error line is not recognised by the shown parser. It falls through to the protocol error (`RespExamples.NoScriptReply`). The parser test expects a `NoScriptError` from a different parser class, which is not part of this model.
- `_search` excludes the *included* model types whenever some types are to be excluded. Which types were to be excluded therefore never matters (`Search.ExcludeIgnored`).
- A handshake that fails in `on_connect` raises with the socket still set (`Connection.AuthRejected`).
- `get_redis_slice` does not translate a stop that is not positive. `stop or -1` turns a stop of 0 into -1, and a negative stop is passed through unchanged. Redis' range includes its stop, so a stop of 0 keeps the whole list where Python's slice keeps nothing (`QueryArgs.StopNotPositive`). Every negative stop keeps one element more than Python's slice (`QueryArgs.NegativeStopKeepsOneMore`).
- A word of `split_text` can contain a splitter character, because lowercasing happens after the splitters are replaced. For example, splitters `a` and text `BAR` give `bar`. `Search.SplitTextNoSplitter` therefore assumes splitters without lowercase ASCII letters.

## Model

| member | source | states |
|---|---|---|
| Bytes.ParseIntDecimal | stdnet/lib/connection.py:262-264 | `int()` reads back the decimal length/count `to_bytestring(len(...))` writes, for every integer |
| Utf8.DecodeEncode | stdnet/utils/encoders.py:29-40 | strict UTF-8 decoding undoes encoding for every text |
| Utf8.EncodeDecode | stdnet/utils/encoders.py:36-38 | whatever strict decoding accepts re-encodes to the same bytes |
| Encoders.Str | stdnet/utils/encoders.py:34 | `str(x)` gives text unchanged and an integer's decimal notation, which reads back as the integer |
| Encoders.DefaultDumps | stdnet/utils/encoders.py:30-34 | bytes pass through unchanged; any other value becomes bytes that decode to `str(x)` |
| Encoders.DefaultLoads | stdnet/utils/encoders.py:36-40 | bytes decode iff valid UTF-8 (else `UnicodeDecodeError`) and re-encode to the input; non-bytes give `str(x)` |
| Encoders.DefaultRoundTrip | stdnet/utils/encoders.py:29-40 | `loads(dumps(s)) == s` for every text |
| Encoders.DefaultDumpsInt | stdnet/utils/encoders.py:33-34 | an integer is stored as its decimal digits |
| Encoders.BytesDumps | stdnet/utils/encoders.py:60-63 | bytes pass through, text is UTF-8 encoded, a value without `encode` raises `AttributeError` |
| Encoders.BytesLoadsDumps | stdnet/utils/encoders.py:60-65 | `loads` (the same function) gives back what `dumps` stored |
| Encoders.NoEncoderRoundTrip | stdnet/utils/encoders.py:68-74 | the pass-through encoder stores a value unchanged, and loading undoes dumping in both orders |
| Encoders.PickleLoads | stdnet/utils/encoders.py:92-101 | `None` stays `None`, a non-bytes value is returned unchanged, an `UnpicklingError` gives `None`, and any other exception the unpickler raises propagates (exactly then is the result an error) |
| Encoders.PickleRoundTrip | stdnet/utils/encoders.py:83-101 | a value the unpickler reads back survives `dumps` then `loads`; `None` and an unpicklable value come back as `None` |
| Encoders.PickleDumps | stdnet/utils/encoders.py:83-90 | `None` gives `None`; anything else gives bytes or, when pickling fails, `None` |
| Resp.ReadLine | stdnet/lib/connection.py:55-63 | a line is read up to its LF and loses its two terminator bytes; without an LF more bytes are needed |
| Resp.ReadBulk | stdnet/lib/connection.py:61-62 | exactly `length` payload bytes, then two dropped; fewer than `length + 2` bytes need more |
| Resp.ParseReply | stdnet/lib/connection.py:68-103 | a decoded reply consumes a non-empty prefix and leaves a suffix of the buffer (the termination measure of nested arrays) |
| Resp.ParseError | stdnet/lib/connection.py:76-83 | a `-` line consumes exactly its line |
| Resp.ParseBulk | stdnet/lib/connection.py:91-95 | a bulk reply consumes only bytes of its own buffer and leaves a suffix |
| Resp.NegativeBulkLength | stdnet/lib/connection.py:55-95 | a bulk length of -2 gives the empty byte string and consumes nothing more; a length below -2 reads to the end and drops its last two bytes |
| Resp.ParseArray | stdnet/lib/connection.py:97-102 | an array reply consumes only bytes of its own buffer and leaves a suffix |
| Resp.ParseItems | stdnet/lib/connection.py:101-102 | `n` replies decoded in order, consuming the buffer's prefix |
| Resp.PackCommand | stdnet/lib/connection.py:260-264 | the packet starts with `*`, the decimal argument count and CRLF |
| Resp.ParseFramed | stdnet/lib/connection.py:68-103 | decoding any framed reply gives it back and leaves exactly the following bytes |
| Resp.PipelinedReplies | tests/py/backends/redis/parser.py:83-91 | several framed replies in one buffer decode one per call, in order, and consume it exactly |
| Resp.IncompleteFrame | stdnet/lib/connection.py:55-63 | every proper prefix of a framed reply asks for more bytes, never yields a reply or an error |
| Resp.PackCommandIsArrayFrame | stdnet/lib/connection.py:260-264 | `*` count CRLF, then per argument in order `$` length CRLF bytes CRLF: the frame of an array of bulk strings |
| Resp.PackCommandRoundTrip | stdnet/lib/connection.py:260-264 | decoding a packed command gives the array of its encoded arguments, whatever bytes they hold |
| RespExamples.NullBulk | tests/py/backends/redis/parser.py:31-35 | `$-1` is `None` |
| RespExamples.NullArray | stdnet/lib/connection.py:97-100 | `*-1` is `None` |
| RespExamples.EmptyBulk | tests/py/backends/redis/parser.py:37-42 | `$0\r\n\r\n` is the empty byte string, buffer consumed |
| RespExamples.EmptyArray | tests/py/backends/redis/parser.py:44-49 | `*0` is the empty list, buffer consumed |
| RespExamples.UnknownKind | tests/py/backends/redis/parser.py:51-55 | an unknown leading byte is `InvalidResponse` |
| RespExamples.ErrReply | tests/py/backends/redis/parser.py:57-63 | `-ERR random error` is a response error carrying `random error` |
| RespExamples.NoScriptReply | stdnet/lib/connection.py:76-83 | `-NOSCRIPT ...` falls through to `InvalidResponse` |
| RespExamples.LoadingReply | stdnet/lib/connection.py:80-83 | `-LOADING ...` raises the connection error after its line is read; what follows stays unread |
| RespExamples.EmptyLine | stdnet/lib/connection.py:69-71 | an empty line raises "Socket closed on remote end" after it is read; what follows stays unread |
| RespExamples.BinaryBulk | tests/py/backends/redis/parser.py:73-81 | a 31-byte binary payload is taken by length and the buffer is emptied |
| Connection.Disconnect | stdnet/lib/connection.py:207-216 | the socket is forgotten, settings unchanged |
| Connection.ReadFailure | stdnet/lib/connection.py:68-103 | an empty line and `-LOADING` are `ConnectionError`s, every other reader failure is not |
| Connection.ReadResponse | stdnet/lib/connection.py:249-254 | an `-ERR` reply is raised as `ResponseError`, never returned; other replies are returned and consumed; a reply the reader raises on is consumed up to where it raised, and that error is raised; an incomplete stream is "closed on remote end" and consumes nothing |
| Connection.Connect | stdnet/lib/connection.py:162-172 | no-op with a socket; otherwise one connection attempt, `ConnectionError` when it fails, then `on_connect` |
| Connection.OnConnect | stdnet/lib/connection.py:191-205 | with neither password nor database nothing is sent |
| Connection.Handshake | stdnet/lib/connection.py:197-205 | one handshake command: settings unchanged, only scripted events consumed, success leaves the socket set |
| Connection.SendCommand | stdnet/lib/connection.py:245-247 | on success the packet delivered last decodes as the array of the encoded arguments |
| Connection.SendPacked | stdnet/lib/connection.py:234-243 | success means the socket is set and the packet is the last one delivered |
| Connection.Send | stdnet/lib/connection.py:218-232 | lazy connect; one write; EPIPE disconnects; a write failure is a `ConnectionError` |
| Connection.ConnectHandshake | stdnet/lib/connection.py:162-205 | AUTH only with a password, SELECT only for db != 0, in that order; exactly those packets are sent and their OK replies consumed |
| Connection.OnConnectAuth | stdnet/lib/connection.py:196-199 | password only: one AUTH packet |
| Connection.OnConnectSelect | stdnet/lib/connection.py:202-205 | database only: one SELECT packet |
| Connection.OnConnectBoth | stdnet/lib/connection.py:191-205 | both: AUTH then SELECT |
| Connection.AuthRejected | stdnet/lib/connection.py:196-199 | a non-OK reply to AUTH raises "Invalid Password" and leaves the socket set |
| Connection.SelectRejected | stdnet/lib/connection.py:202-205 | without a password, a non-OK reply to SELECT raises "Invalid Database" and leaves the socket set |
| Connection.SelectAfterAuthRejected | stdnet/lib/connection.py:196-205 | with a password, AUTH answered OK and SELECT answered otherwise raises "Invalid Database" after both packets were sent, socket set |
| Connection.HandshakeReadFails | stdnet/lib/connection.py:196-198 | a handshake reply the reader raises on propagates the reader's error, with that reply consumed and the packet on the wire |
| Connection.RetryAfterReadFailure | stdnet/lib/connection.py:196-243 | `-LOADING` or an empty line in answer to AUTH makes `send_packed_command` disconnect and retry; an OK on the second connection delivers the packet after two AUTH packets |
| Connection.LoadingThenOk | stdnet/lib/connection.py:234-243 | a server answering `-LOADING` and then `+OK` gets the packet delivered on the retry |
| Connection.AuthErrorReply | stdnet/lib/connection.py:196-198 | an error reply to AUTH is raised as that `ResponseError` |
| Connection.PlainSendPacked | stdnet/lib/connection.py:234-243 | at most two write and two connection attempts; the packet is delivered iff no error |
| Connection.PlainSend | stdnet/lib/connection.py:218-232 | at most one write and one connection attempt; delivered iff no error |
| Connection.RetryOnce | stdnet/lib/connection.py:236-243 | a failed write is retried after disconnect and reconnect, and the retry delivers |
| Connection.SecondFailurePropagates | stdnet/lib/connection.py:241-243 | when the retry fails too its error propagates; nothing is delivered |
| Connection.FirstAttemptDelivers | stdnet/lib/connection.py:236-237 | a write that succeeds is not repeated |
| Connection.LazyConnect | stdnet/lib/connection.py:220-221 | `_send` without a socket first tries to connect |
| Models.Family | stdnet/backends/redisb.py:187 | the family is `z` exactly for ordered models, else `s` |
| Keys.Basekey | stdnet/backends/redisb.py:699-703 | the key starts with namespace + model key and equals it exactly when the non-`None` args join to `''` |
| Keys.BasekeyArgs | stdnet/backends/redisb.py:699-703 | after the model key and `:`, splitting on `:` gives back the colon-free args |
| Keys.Tempkey | stdnet/backends/redisb.py:705-707 | a temporary key is the model key, `:tmp:` and the unique id |
| Keys.TempkeysDistinct | stdnet/backends/redisb.py:705-707 | distinct draws of the unique id give distinct temporary keys |
| Commands.Keep | stdnet/backends/redisb.py:133-137 | the kept results are exactly the results of the requested type |
| Commands.KeepCounts | stdnet/backends/redisb.py:133-137 | each result of the type is kept with its multiplicity |
| Commands.KeepConcat | stdnet/backends/redisb.py:133-137 | filtering a concatenation is the concatenation of the filtered parts, so the kept results stay in execution order |
| Commands.KeepSingle | stdnet/backends/redisb.py:135-137 | a single result is kept exactly when it is of the type |
| Commands.RedisExecution | stdnet/backends/redisb.py:128-138 | an empty stack is `IndexError`; the first raised result is raised; otherwise the stack minus its opening and the results of the type |
| Query.ToKeyword | stdnet/backends/redisb.py:197-221 | a keyword is one the compiler rejects exactly when it is none of `set`, `intersect`, `union`, `diff`; the word is kept |
| Query.Accumulate | stdnet/backends/redisb.py:183-222 | raises iff some keyword is unknown; the all-ids leaf emits nothing and returns the id key; every other node emits one command per node, last, storing into its key |
| Query.Gather | stdnet/backends/redisb.py:189-195 | children are compiled in order into the same pipe, one `(tag, key)` pair each |
| Query.OddsInterleave | stdnet/backends/redisb.py:189-212 | `args[1::2]` is exactly the children's keys in order |
| Query.StoreCall | stdnet/backends/redisb.py:213-218 | a store command of the model's family, destination first, then the sources |
| Query.GatherKeys | stdnet/backends/redisb.py:190-195 | each child hands over `('', value)` or `('key', key)`, a compiled child's key being stored by an earlier command of the pipe |
| Query.GatherKeysAll | stdnet/backends/redisb.py:189-195 | one key per child, and each child's key flows from that child |
| Query.StoreOverChildren | stdnet/backends/redisb.py:209-222 | a set operation emits exactly one store command, last, over exactly the children's keys |
| Query.BuildQueryOverChildren | stdnet/backends/redisb.py:197-208 | a non-trivial `set` node emits exactly one `build_query`, last, into a fresh temporary key, with the children's pairs |
| Query.AccumulateTempkey | stdnet/backends/redisb.py:203-211 | each compiled node stores into the temporary key the counter handed out last |
| Query.AccumulateCompiles | stdnet/backends/redisb.py:183-222 | compiling appends only `build_query` scripts and client calls |
| Query.Build | stdnet/backends/redisb.py:224-241 | `_build` fails iff compiling fails; it picks `zrank` and `scard` for ordered models, `sismember` and `zcard` otherwise |
| Query.CountCommand | stdnet/backends/redisb.py:247-250 | the count command is of the model's family: `zcard` when ordered, `scard` otherwise |
| Query.ExecuteQuery | stdnet/backends/redisb.py:243-253 | queues the count, executes, returns the last query result's count, and succeeds whenever nothing raised and a query result came back |
| Query.CardCrosswise | stdnet/backends/redisb.py:234-250 | `_build`'s count method never matches the family `_execute_query` counts with |
| QueryArgs.GetRedisSlice | stdnet/backends/redisb.py:280-289 | `(0,-1)` without a slice; start defaults to 0; a missing or zero stop is -1; a positive stop is decremented |
| QueryArgs.SliceAgrees | stdnet/backends/redisb.py:280-289 | with an omitted or positive stop, the Redis range selects exactly Python's slice |
| QueryArgs.StopNotPositive | stdnet/backends/redisb.py:283-285 | a stop of 0 (made -1) or -1 keeps the whole list, where Python's slice drops the tail |
| QueryArgs.NegativeStopKeepsOneMore | stdnet/backends/redisb.py:283-285 | a negative stop is passed unchanged, and the Redis range keeps one element more than Python's slice |
| QueryArgs.Window | stdnet/backends/redisb.py:320-331 | `explicit` with sort args, else the model's direction or `''`; the start is passed unchanged |
| QueryArgs.ExplicitWindowIsLength | stdnet/backends/redisb.py:320-325 | with sort args the window's last component is the number of elements of the range, or -1 for all |
| QueryArgs.Order | stdnet/backends/redisb.py:255-274 | `None` without ordering; else field, `ALPHA` iff the last field is text, `DESC` iff descending, the hop count, and a (model key, field) pair per hop |
| QueryArgs.RelatedLuaArgs | stdnet/backends/redisb.py:340-360 | `0` without related fields, else their count first |
| QueryArgs.RelatedRoundTrip | stdnet/backends/redisb.py:340-360 | the script reads back exactly the entries in order: model key or `''`, name, attname, `structure` or `''`, fields |
| QueryArgs.EntriesRoundTrip | stdnet/backends/redisb.py:345-360 | the per-field entries read back as the related fields' views and leave whatever follows |
| QueryArgs.RelatedArgsRead | stdnet/backends/redisb.py:340-360 | the related-field arguments, followed by anything, read back as their count and views, leaving what follows |
| QueryArgs.ItemsArgsRoundTrip | stdnet/backends/redisb.py:291-332 | the `load_query` arguments read back as the query key, model key, fields, related views, window name, slice start, window stop and sort args |
| QueryArgs.LoadBuild | stdnet/backends/redisb.py:47-58 | only `id` requested gives one empty row per id; other fields zip with the attributes; no fields reads pairs |
| QueryArgs.LoadBuildFields | stdnet/backends/redisb.py:54-55 | with distinct attributes each maps to the reply's value at its position |
| Mappings.ZipMap | stdnet/backends/redisb.py:55 | `dict(zip(...))` has exactly the keys up to the shorter list |
| Mappings.ZipMapLookup | stdnet/backends/redisb.py:55 | with distinct keys, each key maps to its value |
| Mappings.FlatMapping | stdnet/backends/redisb.py:653 | pairs laid out as `k1, v1, k2, v2, ...` |
| Mappings.PairsToDict | stdnet/backends/redisb.py:58 | the keys are exactly the elements at even positions that have a successor |
| Mappings.PairsFlatMapping | stdnet/backends/redisb.py:653 | reading a flattened mapping back as pairs gives the mapping of the pairs |
| Mappings.PairsFlatMappingLookup | stdnet/backends/redisb.py:653 | with distinct field names every field reads back with its value |
| Structures.FlatScored | stdnet/backends/redisb.py:409-410 | scored members laid out as score, member |
| Structures.SetFlush | stdnet/backends/redisb.py:390-395 | at most one add then one remove, only `sadd` and `srem`, none for an empty cache |
| Structures.ZsetFlush | stdnet/backends/redisb.py:406-413 | at most two commands, all `zadd`, none for an empty cache |
| Structures.ListFlush | stdnet/backends/redisb.py:449-454 | at most two commands, only `lpush` and `rpush`, none when empty |
| Structures.HashFlush | stdnet/backends/redisb.py:466-471 | at most two commands, only `hmset` and `hdel`, none when empty |
| Structures.Flush | stdnet/backends/redisb.py:506-513 | raises exactly for a time series with removals; at most two calls, all on the structure's id |
| Structures.FlushAll | stdnet/backends/redisb.py:736-740 | the flush raises iff some structure's flush raises |
| Structures.FlushAllClean | stdnet/backends/redisb.py:736-740 | without a raise the pipe receives every structure's commands, in order |
| Structures.FlushAllRaises | stdnet/backends/redisb.py:736-740 | when the `k`-th flush raises first, the pipe receives the earlier flushes' commands and the raising one's, and the error is that flush's |
| Structures.IterPipelined | stdnet/backends/redisb.py:363-371 | a pipelined structure iterates over nothing |
| Structures.SetFlushEffect | stdnet/backends/redisb.py:390-395 | on a set the flush adds `toadd`, then removes `toremove` |
| Structures.ZsetFlushKeepsRemoved | stdnet/backends/redisb.py:406-413 | a zset flush only adds members: `toremove` is never removed |
| Structures.ListFlushEffect | stdnet/backends/redisb.py:449-454 | the list becomes `reversed(front) + list + back` |
| Structures.HashFlushEffect | stdnet/backends/redisb.py:466-471 | the hash gains the new fields (last value wins), then loses the removed ones |
| Session.FlatIndices | stdnet/backends/redisb.py:614-618 | all attnames, then one 0/1 unique flag per index in the same order |
| Session.IndicesRoundTrip | stdnet/backends/redisb.py:614-618 | the flat list reads back as the indices |
| Session.DeleteQueryCall | stdnet/backends/redisb.py:689-696 | `delete_query` with model key, query key, family, index count, flat indices, multifield count and names |
| Session.SelfRecursions | stdnet/backends/redisb.py:676-682 | one `add_recursive` per self relation |
| Session.AccumulateDelete | stdnet/backends/redisb.py:663-669 | with `None` nothing is emitted |
| Session.DeleteCascade | stdnet/backends/redisb.py:670-697 | the self-relation calls come first and this model's `delete_query` last; well-formed queries never fail |
| Session.RelatedDeletes | stdnet/backends/redisb.py:686-688 | related models' cascades only append to the pipe |
| Session.RelatedDeletesCount | stdnet/backends/redisb.py:686-688 | the related cascades emit one `delete_query` per model reached through cross relations |
| Session.CascadeDeletes | stdnet/backends/redisb.py:686-696 | the cascade emits exactly one `delete_query` per model reached through cross relations, plus its own |
| Session.RowScore | stdnet/backends/redisb.py:646-650 | the score is the sentinel unless the model is ordered and the value is set |
| Session.Row | stdnet/backends/redisb.py:651-656 | the row's declared data length is the number of data arguments that follow |
| Session.RowRoundTrip | stdnet/backends/redisb.py:651-656 | a row reads back as action (`c`/`a`), id or `''`, score and field data |
| Session.Rows | stdnet/backends/redisb.py:641-656 | rows are built iff every instance validates; else `FieldValueError` with the first invalid instance's errors |
| Session.UnitHeader | stdnet/backends/redisb.py:636-640 | the header carries the instance count and index count, and its tail reads back as the model's indices |
| Session.RowsRead | stdnet/backends/redisb.py:641-656 | the rows of a unit read back, in order, as its instances' views, leaving what follows |
| Session.UnitRoundTrip | stdnet/backends/redisb.py:636-656 | a unit's header and rows read back as model key, family, indices and the instances' views |
| Session.DeleteStep | stdnet/backends/redisb.py:632-633 | no delete query adds nothing; a well-formed one never fails |
| Session.UnitStep | stdnet/backends/redisb.py:625-658 | a unit only extends the pipe and `lua_data`, and succeeds only with valid instances |
| Session.UnitStepAppends | stdnet/backends/redisb.py:625-658 | a structure unit appends its flushes' commands; an object unit queues its cascade, then with instances appends a segment to `lua_data` that reads back as the unit and queues `commit_session` with the whole list |
| Session.SessionUnits | stdnet/backends/redisb.py:625-658 | success implies every instance of every unit is valid |
| Session.ExecuteSession | stdnet/backends/redisb.py:620-661 | an invalid instance fails the session before execution; success returns the session results |
| Session.ValidateBeforeExecute | stdnet/backends/redisb.py:643-645 | with an invalid instance the outcome does not depend on the execution's results |
| Session.CommitArgsAccumulate | stdnet/backends/redisb.py:623-658 | each queued `commit_session`'s args are a prefix of every later one's |
| BackendQueries.Expire | stdnet/utils/async.py:76 | `expire >= 10`, `expire >= timeout`, and it is one of them |
| BackendQueries.Init | stdnet/utils/async.py:73-81 | a new query is not executed and caches nothing |
| BackendQueries.ExecuteQuery | stdnet/utils/async.py:122-125 | runs the backend iff not executed; afterwards executed with the returned count memoised |
| BackendQueries.ExecuteOnce | stdnet/utils/async.py:122-125 | once executed the backend never runs again, whatever it would return |
| BackendQueries.Read | stdnet/utils/async.py:112-120 | `len`, `count` and `in` all go through `execute_query` |
| BackendQueries.Run | stdnet/utils/async.py:106-125 | the backend runs at most once over any run of readers, and every count read is the first one |
| BackendQueries.SyncAsync | stdnet/utils/async.py:35-42 | `None` iff nothing was yielded, else a yielded value |
| BackendQueries.SyncAsyncLast | stdnet/utils/async.py:39-41 | the result is the last value yielded |
| BackendQueries.SyncAsyncAppend | stdnet/utils/async.py:39-41 | a later non-empty run of yields decides the result |
| BackendQueries.GetItems | stdnet/utils/async.py:181-185 | nothing for a `None` or zero count, else what `_items` fetches |
| BackendQueries.GetItemsAfterExecute | stdnet/utils/async.py:122-185 | items are asked for against the memoised count, so re-executing changes nothing; none come back iff that count is zero or the fetch is empty |
| BackendQueries.StoreItems | stdnet/utils/async.py:187-196 | the items are cached under the key; `callback(seq)` or `seq` is returned |
| BackendQueries.StoreThenLookup | stdnet/utils/async.py:187-196 | the key then holds the items, other keys and the count memo are untouched |
| Search.Init | stdnet/apps/searchengine/__init__.py:96-106 | the splitters default to the punctuation characters; an empty string means no replacement |
| Search.Replace | stdnet/apps/searchengine/__init__.py:115-116 | each splitter character becomes a space, others unchanged |
| Search.Words | stdnet/apps/searchengine/__init__.py:118 | `split()` yields non-empty words without whitespace |
| Search.SplitText | stdnet/apps/searchengine/__init__.py:114-121 | every word is at least `MIN_WORD_LENGTH` long, has no whitespace and no uppercase ASCII |
| Search.SplitTextConcat | stdnet/apps/searchengine/__init__.py:114-121 | words come out in order of appearance: the words of `a + ' ' + b` are those of `a` then `b` |
| Search.SplitTextWord | stdnet/apps/searchengine/__init__.py:117-121 | a single word is kept lowercased iff long enough |
| Search.NoSplitters | stdnet/apps/searchengine/__init__.py:100-106 | with empty splitters text splits on whitespace only |
| Search.SplitTextNoSplitter | stdnet/apps/searchengine/__init__.py:115-118 | no word contains a splitter (splitters without lowercase letters) |
| Search.SearchBase | stdnet/apps/searchengine/__init__.py:176-181 | filters by the included types; when excluding, excludes the included types |
| Search.SearchQueries | stdnet/apps/searchengine/__init__.py:174-194 | no words gives the base query; `contains` (default) one query per word; `in` one query for any word; other lookups `ValueError` |
| Search.PerWord | stdnet/apps/searchengine/__init__.py:188-191 | one query per word, matching exactly that word |
| Search.ExcludeIgnored | stdnet/apps/searchengine/__init__.py:180-181 | which types are excluded makes no difference |
| Search.SearchModel | stdnet/apps/searchengine/__init__.py:153-162 | no words returns the query unchanged; else its intersection with the word queries for its model |
| Search.AddItem | stdnet/apps/searchengine/__init__.py:132-136 | exactly one word item per word, in order, each with the item's type and id |
| Search.AddItemConcat | stdnet/apps/searchengine/__init__.py:132-136 | adding two runs of words is adding them as one run |

## Left out

- The reader follows the Python 2 branch of `connection.py`: lines lose two terminator bytes (`LENCRLF` is 2) and the parser works on bytes. The Python 3 branch strips one byte and would treat non-ASCII payloads and payloads holding CR or LF differently. It is not modelled.
- Bytes.ParseInt: accepts an optional sign and decimal digits only. Python's `int()` and `long()` also accept surrounding whitespace, which the model rejects as malformed.
- Resp.ParseBulk: a length below -2 makes Python's `read` read to the end of the stream. The model takes the stream to end with the buffer in hand.
- Resp.ParseReply: its own contract states only that a decoded reply consumes a non-empty prefix. What it decodes is stated by `Resp.ParseFramed`, `Resp.NegativeBulkLength` and the examples.
- `session.lua` is not part of this model. `Session.DecodeUnit` reads `lua_data` back in the layout `execute_session` builds, and the round-trip lemmas are stated against that reading.
- `on_disconnect` drops the old socket's reader together with any bytes it had buffered. The model keeps one input stream across reconnects, so a script lists the bytes each connection receives one after the other, and unread bytes of a closed connection are not discarded.
- Sockets, `makefile`, `_connect`, socket timeouts and `_error_message` formatting are I/O. They are abstracted as the scripted `Net` oracle, and an exhausted oracle counts as a failure.
- `HiredisParser` wraps a native library and `UnixDomainSocketConnection` only changes the socket kind, so neither is modelled.
- `Connection.encode` (`to_bytestring`) is modelled as `Default.dumps` with UTF-8. Its module is not part of this model.
- The exception hierarchy is not part of this model. `ResponseError` and `InvalidResponse` are taken not to be `ConnectionError`s, so `send_packed_command` does not retry on them.
- The Lua scripts (`build_query`, `load_query`, `add_recursive`, `delete_query`, `session.lua`) are opaque `Script` records. Their server-side effects and atomicity are not modelled.
- Redis command semantics are modelled only for the structure commands `sadd`, `srem`, `zadd`, `lpush`, `rpush`, `hmset` and `hdel`, to state what a flush does. `tsadd` has no semantics here.
- Scores, `MIN_FLOAT` and `scorefun` are floats. A score is an opaque value with a distinguished sentinel.
- `flat_mapping`, `pairs_to_dict` and `gen_unique_id` live in modules that are not part of this model.
  - The first two are modelled from how the backend uses them.
  - `gen_unique_id` is assumed never to repeat an id. The model stands for its draws by a counter, so distinct draws differ. Its actual generator, which is not a counter, is not part of this model.
- `query_from_query` and `get_delete_query` are not part of this model.
  - A related query is modelled as a `set` node on the relation's attribute with lookup `in` over the parent query.
  - A unit's delete query is modelled as compiled into the session's pipe.
- The relation graph is modelled as a tree: `accumulate_delete` has no cycle guard.
- The base `commit` of a structure and `pre_commit` are not part of this model. A structure's commit is modelled as its `flush`.
- Session units of a model type other than `structure` or `object` are not modelled, because the loop skips them.
- `session_result`, `query_result` and the `commit_session`/`load_query` callbacks are not modelled beyond their result type.
- `build_from_query` is not modelled: it references names that are undefined at that point.
- Also not modelled:
  - `load_query.callback`/`load_related`, because they depend on the unseen ORM;
  - `delete_query.callback`, because it is dead code after its `return`;
  - the pool registry of `setup_connection`;
  - `flush`, `clean`, `model_keys`, `instance_keys`;
  - the structures' read methods.
- Structure instances' `session.add` in `_store_items` is a side effect on the unseen session and is left out.
- `BackendQuery.items` and `__getitem__` are not modelled: in synchronous mode `items` can reach an unbound `items` variable. `delete` and `cache` are thin wrappers over the unseen session.
- `on_result`'s asynchronous and failure branches exist only with the async library. In synchronous mode it applies the callback at once, which `BackendQueries.ExecuteQuery` inlines. `on_error` returns its argument unchanged there.
- The word middlewares of `words_from_text` (stop words, stemming, metaphone) are not part of this model. Searched and indexed words are given.
- `remove_item`, `worditems`, `flush` and `session` of the search engine are left out as queries over the unseen ORM.
- Search.LowerChar: lowercases ASCII letters only, not all of Unicode as Python's `str.lower` does.
- Search.SearchBase: `exclude(model_type__in=None)` (excluding with no types included) is taken to exclude nothing.
- `Json`, the pickle format itself (the pickler and unpickler are parameters), `DateTimeConverter`, `DateConverter` and the Python 2 branch of `Default` are left out.
- Session.SessionUnits: the order in which errors surface follows the code's loop. The JSON text of `FieldValueError` is the instance's error string as given.
