/** The reply reader (`PythonParser.read_response`) and command packer
    (`Connection.pack_command`) of the Redis serialization protocol, version 2.

    The reader is a pure function over the unconsumed bytes: it decodes one reply from
    the front and returns the rest, or reports that more bytes are needed. Lines are read
    as the source's byte-oriented `read` does: up to and including the first LF, with the
    two terminator bytes dropped; a bulk payload is taken by its declared length, followed
    by two terminator bytes. */
module Resp {
  import opened Wrappers
  import opened Bytes
  import Encoders

  const MINUS: Byte := '-' as int
  const PLUS: Byte := '+' as int
  const COLON: Byte := ':' as int
  const DOLLAR: Byte := '$' as int
  const STAR: Byte := '*' as int

  /** `ERR ` and `LOADING `, the two error prefixes the reader recognises. */
  const ERR: ByteString := ['E' as int, 'R' as int, 'R' as int, ' ' as int]
  const LOADING: ByteString :=
    ['L' as int, 'O' as int, 'A' as int, 'D' as int, 'I' as int, 'N' as int, 'G' as int, ' ' as int]

  /** A decoded reply. `ResponseError` is returned by the reader as a value (the
      connection raises it); `Null` is Python's `None`, for `$-1` as for `*-1`. */
  datatype Reply =
    | Status(s: ByteString)
    | ResponseError(msg: ByteString)
    | Integer(i: int)
    | Bulk(b: ByteString)
    | Null
    | Array(items: seq<Reply>)

  /** What the reader raises. */
  datatype Failure =
    | SocketClosed     // an empty line: ConnectionError("Socket closed on remote end")
    | Loading          // `-LOADING ...`: ConnectionError("Redis is loading data into memory")
    | ProtocolError    // an unknown leading byte or error subtype: InvalidResponse
    | BadInteger       // a length, count or integer that `int` rejects: ValueError

  /** One step of the reader: a value and the bytes after it, a request for more bytes,
      or a raised error with the bytes the reader had not yet consumed when it raised
      (a failing line is consumed, as `readline` consumes it). */
  datatype Decoded<T> = Done(value: T, rest: ByteString) | NeedMore | Fail(failure: Failure, rest: ByteString)

  predicate IsSuffix(rest: ByteString, buf: ByteString) {
    |rest| <= |buf| && rest == buf[|buf| - |rest|..]
  }

  predicate StartsWith(s: ByteString, prefix: ByteString) {
    |prefix| <= |s| && s[..|prefix|] == prefix
  }

  /** The index of the first LF at or after `i`, if any. */
  function FindLF(buf: ByteString, i: nat): (r: Option<nat>)
    requires i <= |buf|
    ensures r.Some? ==> i <= r.value < |buf| && buf[r.value] == LF
    ensures r.Some? ==> forall k :: i <= k < r.value ==> buf[k] != LF
    ensures r.None? ==> forall k :: i <= k < |buf| ==> buf[k] != LF
    decreases |buf| - i
  {
    if i == |buf| then None
    else if buf[i] == LF then Some(i)
    else FindLF(buf, i + 1)
  }

  /** `read()` with no length: one line without its two terminator bytes. */
  function ReadLine(buf: ByteString): (r: Decoded<ByteString>)
    ensures r.Done? ==> |r.rest| < |buf| && IsSuffix(r.rest, buf)
    ensures r.Fail? ==> false
    ensures r.NeedMore? <==> LF !in buf
  {
    match FindLF(buf, 0)
    case None => NeedMore
    case Some(j) => Done(if j >= 1 then buf[..j - 1] else [], buf[j + 1..])
  }

  /** `read(length)`: `length` payload bytes, then two terminator bytes that are dropped. */
  function ReadBulk(buf: ByteString, length: nat): (r: Decoded<ByteString>)
    ensures !r.Fail?
    ensures r.NeedMore? <==> |buf| < length + 2
    ensures r.Done? ==> |buf| >= length + 2 && r.value == buf[..length] && r.rest == buf[length + 2..]
  {
    if |buf| < length + 2 then NeedMore else Done(buf[..length], buf[length + 2..])
  }

  /** `read_response`: decodes one reply from the front of `buf`. Every decoded reply
      consumes at least one byte, which is the measure that makes the recursion through
      arrays terminate at any nesting depth. */
  function ParseReply(buf: ByteString): (r: Decoded<Reply>)
    ensures !r.NeedMore? ==> |r.rest| < |buf| && IsSuffix(r.rest, buf)
    decreases |buf|, 0, 0
  {
    match ReadLine(buf)
    case NeedMore => NeedMore
    case Fail(f, left) => Fail(f, left)
    case Done(line, rest) =>
      if line == [] then Fail(SocketClosed, rest) else ParseTyped(line[0], line[1..], rest)
  }

  /** Dispatch on the first byte of a reply line; `body` is the rest of the line and
      `rest` the bytes after it. */
  function ParseTyped(kind: Byte, body: ByteString, rest: ByteString): (r: Decoded<Reply>)
    ensures !r.NeedMore? ==> IsSuffix(r.rest, rest)
    decreases |rest|, 3, 0
  {
    if kind == MINUS then ParseError(body, rest)
    else if kind == PLUS then Done(Status(body), rest)
    else if kind == COLON then
      match ParseInt(body)
      case None => Fail(BadInteger, rest)
      case Some(i) => Done(Integer(i), rest)
    else if kind == DOLLAR then ParseBulk(body, rest)
    else if kind == STAR then ParseArray(body, rest)
    else Fail(ProtocolError, rest)
  }

  /** A `-` line: `ERR ` gives a response error carrying the rest of the line, `LOADING `
      raises a connection error, and any other subtype falls through to the protocol
      error. */
  function ParseError(body: ByteString, rest: ByteString): (r: Decoded<Reply>)
    ensures !r.NeedMore? && r.rest == rest
  {
    if StartsWith(body, ERR) then Done(ResponseError(body[|ERR|..]), rest)
    else if StartsWith(body, LOADING) then Fail(Loading, rest)
    else Fail(ProtocolError, rest)
  }

  /** A `$` line: length -1 is `None`, otherwise the payload is read by length with
      `read(length + 2)[:-2]`. A length of -2 reads nothing and gives the empty value;
      a smaller one is a negative size, which reads to the end of the stream (here, the
      whole buffer), and the last two bytes of what was read are dropped. */
  function ParseBulk(body: ByteString, rest: ByteString): (r: Decoded<Reply>)
    ensures !r.NeedMore? ==> IsSuffix(r.rest, rest)
  {
    match ParseInt(body)
    case None => Fail(BadInteger, rest)
    case Some(n) =>
      if n == -1 then Done(Null, rest)
      else if n == -2 then Done(Bulk([]), rest)
      else if n < -2 then Done(Bulk(if |rest| >= 2 then rest[..|rest| - 2] else []), [])
      else
        match ReadBulk(rest, n)
        case Done(payload, rest') => Done(Bulk(payload), rest')
        case NeedMore => NeedMore
        case Fail(f, left) => Fail(f, left)
  }

  /** A `*` line: count -1 is `None`, otherwise that many replies follow (`range(n)` is
      empty for any other negative count). */
  function ParseArray(body: ByteString, rest: ByteString): (r: Decoded<Reply>)
    ensures !r.NeedMore? ==> IsSuffix(r.rest, rest)
    decreases |rest|, 2, 0
  {
    match ParseInt(body)
    case None => Fail(BadInteger, rest)
    case Some(n) =>
      if n == -1 then Done(Null, rest)
      else
        match ParseItems(rest, if n < 0 then 0 else n)
        case Done(items, rest') => Done(Array(items), rest')
        case NeedMore => NeedMore
        case Fail(f, left) => Fail(f, left)
  }

  /** Decodes `n` replies one after the other: the elements of an array, or `n`
      pipelined replies read back in order. */
  function ParseItems(buf: ByteString, n: nat): (r: Decoded<seq<Reply>>)
    ensures r.Done? ==> |r.value| == n
    ensures !r.NeedMore? ==> IsSuffix(r.rest, buf)
    ensures r.Done? && n > 0 ==> |r.rest| < |buf|
    decreases |buf|, 1, n
  {
    if n == 0 then Done([], buf)
    else
      match ParseReply(buf)
      case NeedMore => NeedMore
      case Fail(f, left) => Fail(f, left)
      case Done(first, rest) =>
        match ParseItems(rest, n - 1)
        case NeedMore => NeedMore
        case Fail(f, left) => Fail(f, left)
        case Done(others, rest') => Done([first] + others, rest')
  }

  // ---------------------------------------------------------------------------------
  // Framing: how a server writes each reply. The reader is proved to invert it.

  /** A reply the server can frame: status and error texts hold no LF. */
  predicate Frameable(r: Reply) {
    match r
    case Status(s) => LF !in s
    case ResponseError(msg) => LF !in msg
    case Array(items) => forall i :: 0 <= i < |items| ==> Frameable(items[i])
    case _ => true
  }

  function Frame(r: Reply): ByteString
    decreases r, 1
  {
    match r
    case Status(s) => [PLUS] + s + CRLF
    case ResponseError(msg) => [MINUS] + ERR + msg + CRLF
    case Integer(i) => [COLON] + IntToDecimal(i) + CRLF
    case Bulk(b) => [DOLLAR] + IntToDecimal(|b|) + CRLF + b + CRLF
    case Null => [DOLLAR] + IntToDecimal(-1) + CRLF
    case Array(items) => [STAR] + IntToDecimal(|items|) + CRLF + Frames(r, items)
  }

  /** The frames of `items`, back to back. */
  function Frames(parent: Reply, items: seq<Reply>): ByteString
    requires forall i :: 0 <= i < |items| ==> items[i] < parent
    decreases parent, 0, |items|
  {
    if items == [] then [] else Frame(items[0]) + Frames(parent, items[1..])
  }

  /** `Connection.pack_command`: each argument is encoded (as `Default.dumps` encodes a
      value) and sent as a bulk frame, after an array header carrying the count. */
  function PackCommand(args: seq<Encoders.Value>): (r: ByteString)
    ensures StartsWith(r, [STAR] + IntToDecimal(|args|) + CRLF)
  {
    [STAR] + IntToDecimal(|args|) + CRLF + BulkFrames(args)
  }

  function BulkFrames(args: seq<Encoders.Value>): ByteString {
    if args == [] then []
    else
      var v := Encoders.DefaultDumps(args[0]);
      [DOLLAR] + IntToDecimal(|v|) + CRLF + v + CRLF + BulkFrames(args[1..])
  }

  /** The reply that `pack_command(*args)` frames: an array of the encoded arguments. */
  function CommandReply(args: seq<Encoders.Value>): Reply {
    Array(seq(|args|, i requires 0 <= i < |args| => Bulk(Encoders.DefaultDumps(args[i]))))
  }

  /** The replies `rs` framed back to back, as a pipelined response stream. */
  function FrameSeq(rs: seq<Reply>): ByteString {
    if rs == [] then [] else Frame(rs[0]) + FrameSeq(rs[1..])
  }

  // ---------------------------------------------------------------------------------
  // The reader inverts the framing.

  lemma ReadFramedLine(line: ByteString, tail: ByteString)
    requires LF !in line
    ensures ReadLine(line + CRLF + tail) == Done(line, tail)
  {
    var buf := line + CRLF + tail;
    assert buf[|line|] == CR && buf[|line| + 1] == LF;
    assert forall k :: 0 <= k < |line| ==> buf[k] == line[k];
    var j := FindLF(buf, 0);
    assert j == Some(|line| + 1);
    assert buf[..|line|] == line;
    assert buf[|line| + 2..] == tail;
  }

  /** Reading a reply line that ends in CRLF: the dispatch sees its first byte, the rest
      of the line, and exactly the bytes after the line. */
  lemma ParseLine(line: ByteString, tail: ByteString)
    requires LF !in line && |line| > 0
    ensures ParseReply(line + CRLF + tail) == ParseTyped(line[0], line[1..], tail)
  {
    ReadFramedLine(line, tail);
  }

  /** A line of kind byte `kind` and body `body`: the dispatch sees exactly these and the
      bytes after the line. */
  lemma ParseKindLine(kind: Byte, body: ByteString, tail: ByteString)
    requires kind != LF && LF !in body
    ensures ParseReply([kind] + body + CRLF + tail) == ParseTyped(kind, body, tail)
  {
    var line := [kind] + body;
    assert LF !in line;
    ParseLine(line, tail);
    assert line[0] == kind && line[1..] == body;
  }

  /** Decoding a framed reply gives back the reply and leaves exactly the bytes after it. */
  lemma {:induction false} ParseFramed(r: Reply, tail: ByteString)
    requires Frameable(r)
    ensures ParseReply(Frame(r) + tail) == Done(r, tail)
    decreases r, 1
  {
    match r
    case Status(s) => ParseFramedStatus(s, tail);
    case ResponseError(msg) => ParseFramedResponseError(msg, tail);
    case Integer(i) => ParseFramedInteger(i, tail);
    case Bulk(b) => ParseFramedBulk(b, tail);
    case Null => ParseFramedNull(tail);
    case Array(items) =>
      ParseFramedItems(r, items, tail);
      ParseFramedArray(r, tail);
  }

  /** An array frame decodes to its items when the frames after its header do. */
  lemma ParseFramedArray(r: Reply, tail: ByteString)
    requires r.Array? && ParseItems(Frames(r, r.items) + tail, |r.items|) == Done(r.items, tail)
    ensures ParseReply(Frame(r) + tail) == Done(r, tail)
  {
    FrameArrayHeader(r);
    ParseArrayFrame(r.items, Frames(r, r.items), tail);
  }

  /** An array header for `items` followed by bytes that read back as those items. */
  lemma ParseArrayFrame(items: seq<Reply>, body: ByteString, tail: ByteString)
    requires ParseItems(body + tail, |items|) == Done(items, tail)
    ensures ParseReply([STAR] + IntToDecimal(|items|) + CRLF + body + tail) == Done(Array(items), tail)
  {
    var d := IntToDecimal(|items|);
    AppendAssoc([STAR] + d + CRLF, body, tail);
    ParseArrayLine(d, body + tail);
    ParseArrayOfItems(body + tail, items, tail);
  }

  lemma ParseFramedStatus(s: ByteString, tail: ByteString)
    requires LF !in s
    ensures ParseReply(Frame(Status(s)) + tail) == Done(Status(s), tail)
  {
    var line := [PLUS] + s;
    assert Frame(Status(s)) + tail == line + CRLF + tail;
    ParseLine(line, tail);
    assert line[1..] == s;
  }

  lemma ParseFramedResponseError(msg: ByteString, tail: ByteString)
    requires LF !in msg
    ensures ParseReply(Frame(ResponseError(msg)) + tail) == Done(ResponseError(msg), tail)
  {
    var body := ERR + msg;
    var line := [MINUS] + body;
    assert LF !in ERR;
    assert LF !in body;
    assert Frame(ResponseError(msg)) + tail == line + CRLF + tail;
    ParseLine(line, tail);
    assert line[0] == MINUS && line[1..] == body;
    ParseFramedError(msg, tail);
  }

  lemma ParseFramedInteger(i: int, tail: ByteString)
    ensures ParseReply(Frame(Integer(i)) + tail) == Done(Integer(i), tail)
  {
    var line := [COLON] + IntToDecimal(i);
    assert Frame(Integer(i)) + tail == line + CRLF + tail;
    ParseLine(line, tail);
    assert line[1..] == IntToDecimal(i);
    ParseIntDecimal(i);
  }

  lemma ParseFramedBulk(b: ByteString, tail: ByteString)
    ensures ParseReply(Frame(Bulk(b)) + tail) == Done(Bulk(b), tail)
  {
    var d := IntToDecimal(|b|);
    assert Frame(Bulk(b)) == [DOLLAR] + d + CRLF + b + CRLF;
    Regroup([DOLLAR] + d + CRLF, b, tail);
    ParseBulkLine(d, b + CRLF + tail);
    ParseBulkPayload(b, tail);
  }

  lemma FrameArrayHeader(r: Reply)
    requires r.Array?
    ensures Frame(r) == [STAR] + IntToDecimal(|r.items|) + CRLF + Frames(r, r.items)
  {
  }

  /** A frame whose payload ends in CRLF, followed by more bytes, read as its header
      followed by the payload and what comes after. */
  lemma Regroup(header: ByteString, payload: ByteString, tail: ByteString)
    ensures header + payload + CRLF + tail == header + (payload + CRLF + tail)
  {
    AppendAssoc(header + payload, CRLF, tail);
    AppendAssoc(header, payload, CRLF + tail);
    AppendAssoc(payload, CRLF, tail);
  }

  lemma ParseBulkPayload(b: ByteString, tail: ByteString)
    ensures ParseBulk(IntToDecimal(|b|), b + CRLF + tail) == Done(Bulk(b), tail)
  {
    ParseIntDecimal(|b|);
    assert (b + CRLF + tail)[..|b|] == b;
    assert (b + CRLF + tail)[|b| + 2..] == tail;
  }

  lemma ParseFramedNull(tail: ByteString)
    ensures ParseReply(Frame(Null) + tail) == Done(Null, tail)
  {
    var line := [DOLLAR] + IntToDecimal(-1);
    assert Frame(Null) + tail == line + CRLF + tail;
    ParseLine(line, tail);
    assert line[1..] == IntToDecimal(-1);
    ParseIntDecimal(-1);
  }

  /** A bulk length below -1 is no error: -2 is the empty value and consumes nothing
      after its line; a smaller length takes the rest of the stream but its last two
      bytes. */
  lemma NegativeBulkLength(n: int, tail: ByteString)
    requires n < -1
    ensures ParseReply([DOLLAR] + IntToDecimal(n) + CRLF + tail) ==
            if n == -2 then Done(Bulk([]), tail)
            else Done(Bulk(if |tail| >= 2 then tail[..|tail| - 2] else []), [])
  {
    ParseBulkLine(IntToDecimal(n), tail);
    NegativeBulkBody(n, tail);
  }

  /** A `$` line hands the rest of its line and exactly the bytes after it to `ParseBulk`. */
  lemma ParseBulkLine(body: ByteString, tail: ByteString)
    requires LF !in body
    ensures ParseReply([DOLLAR] + body + CRLF + tail) == ParseBulk(body, tail)
  {
    ParseKindLine(DOLLAR, body, tail);
  }

  /** A `*` line hands the rest of its line and exactly the bytes after it to `ParseArray`. */
  lemma ParseArrayLine(body: ByteString, tail: ByteString)
    requires LF !in body
    ensures ParseReply([STAR] + body + CRLF + tail) == ParseArray(body, tail)
  {
    ParseKindLine(STAR, body, tail);
  }

  lemma NegativeBulkBody(n: int, tail: ByteString)
    requires n < -1
    ensures ParseBulk(IntToDecimal(n), tail) ==
            if n == -2 then Done(Bulk([]), tail)
            else Done(Bulk(if |tail| >= 2 then tail[..|tail| - 2] else []), [])
  {
    ParseIntDecimal(n);
  }

  lemma ParseArrayOfItems(rest: ByteString, items: seq<Reply>, tail: ByteString)
    requires ParseItems(rest, |items|) == Done(items, tail)
    ensures ParseArray(IntToDecimal(|items|), rest) == Done(Array(items), tail)
  {
    ParseIntDecimal(|items|);
  }

  lemma ParseFramedError(msg: ByteString, tail: ByteString)
    ensures ParseError(ERR + msg, tail) == Done(ResponseError(msg), tail)
  {
    assert (ERR + msg)[..|ERR|] == ERR && (ERR + msg)[|ERR|..] == msg;
  }

  /** Reading `items` back one after the other: the first, then the rest. */
  lemma ParseItemsCons(buf: ByteString, items: seq<Reply>, rest: ByteString, tail: ByteString)
    requires items != []
    requires ParseReply(buf) == Done(items[0], rest)
    requires ParseItems(rest, |items| - 1) == Done(items[1..], tail)
    ensures ParseItems(buf, |items|) == Done(items, tail)
  {
    assert [items[0]] + items[1..] == items;
  }

  lemma {:induction false} ParseFramedItems(parent: Reply, items: seq<Reply>, tail: ByteString)
    requires forall i :: 0 <= i < |items| ==> items[i] < parent
    requires forall i :: 0 <= i < |items| ==> Frameable(items[i])
    ensures ParseItems(Frames(parent, items) + tail, |items|) == Done(items, tail)
    decreases parent, 0, |items|, 1
  {
    if items != [] {
      var rest := Frames(parent, items[1..]) + tail;
      ParseFramedHead(parent, items, tail);
      ParseFramedItems(parent, items[1..], tail);
      ParseItemsCons(Frames(parent, items) + tail, items, rest, tail);
    } else {
      assert Frames(parent, items) + tail == tail;
    }
  }

  lemma {:induction false} ParseFramedHead(parent: Reply, items: seq<Reply>, tail: ByteString)
    requires forall i :: 0 <= i < |items| ==> items[i] < parent
    requires forall i :: 0 <= i < |items| ==> Frameable(items[i])
    requires items != []
    ensures ParseReply(Frames(parent, items) + tail) == Done(items[0], Frames(parent, items[1..]) + tail)
    decreases parent, 0, |items|, 0
  {
    var rest := Frames(parent, items[1..]) + tail;
    assert Frames(parent, items) + tail == Frame(items[0]) + rest;
    ParseFramed(items[0], rest);
  }

  /** Several replies in one buffer decode one per call, in order, and consume the
      buffer exactly. */
  lemma {:induction false} PipelinedReplies(rs: seq<Reply>, tail: ByteString)
    requires forall i :: 0 <= i < |rs| ==> Frameable(rs[i])
    ensures ParseItems(FrameSeq(rs) + tail, |rs|) == Done(rs, tail)
    ensures rs != [] ==> ParseReply(FrameSeq(rs) + tail) == Done(rs[0], FrameSeq(rs[1..]) + tail)
  {
    if rs != [] {
      var rest := FrameSeq(rs[1..]) + tail;
      assert FrameSeq(rs) + tail == Frame(rs[0]) + rest;
      ParseFramed(rs[0], rest);
      PipelinedReplies(rs[1..], tail);
      ParseItemsCons(FrameSeq(rs) + tail, rs, rest, tail);
    } else {
      assert FrameSeq(rs) + tail == tail;
    }
  }

  lemma NoLFInPrefix(line: ByteString, frame: ByteString, k: nat)
    requires LF !in line
    requires StartsWith(frame, line + CRLF)
    requires k <= |line| + 1
    ensures LF !in frame[..k]
  {
    forall j | 0 <= j < k ensures frame[..k][j] != LF {
      assert frame[j] == (line + CRLF)[j];
    }
  }

  /** The line a frame starts with, without its CRLF. */
  function Header(r: Reply): ByteString {
    match r
    case Status(s) => [PLUS] + s
    case ResponseError(msg) => [MINUS] + ERR + msg
    case Integer(i) => [COLON] + IntToDecimal(i)
    case Bulk(b) => [DOLLAR] + IntToDecimal(|b|)
    case Null => [DOLLAR] + IntToDecimal(-1)
    case Array(items) => [STAR] + IntToDecimal(|items|)
  }

  /** What follows the first line of a frame. */
  function Body(r: Reply): ByteString {
    match r
    case Bulk(b) => b + CRLF
    case Array(items) => Frames(r, items)
    case _ => []
  }

  lemma FrameSplit(r: Reply)
    requires Frameable(r)
    ensures Frame(r) == Header(r) + CRLF + Body(r)
    ensures LF !in Header(r) && |Header(r)| > 0
  {
  }

  /** Any proper prefix of a framed reply makes the reader ask for more bytes: an
      incomplete reply is never mistaken for a complete one, nor for an error. */
  lemma {:induction false} IncompleteFrame(r: Reply, k: nat)
    requires Frameable(r)
    requires k < |Frame(r)|
    ensures ParseReply(Frame(r)[..k]) == NeedMore
    decreases r, 1
  {
    FrameSplit(r);
    var h, body := Header(r), Body(r);
    if k <= |h| + 1 {
      NoLFInPrefix(h, Frame(r), k);
    } else {
      var m := k - |h| - 2;
      PrefixAfterLine(h, body, k);
      ParseLine(h, body[..m]);
      match r
      case Bulk(b) => IncompleteBulkLine(b, m);
      case Array(items) => IncompleteArrayLine(r, items, m);
    }
  }

  lemma PrefixAfterLine(h: ByteString, body: ByteString, k: nat)
    requires |h| + 2 <= k <= |h| + 2 + |body|
    ensures (h + CRLF + body)[..k] == h + CRLF + body[..k - |h| - 2]
  {
  }

  lemma IncompleteBulkLine(b: ByteString, m: nat)
    requires m < |b| + 2
    ensures var h := [DOLLAR] + IntToDecimal(|b|);
            ParseTyped(h[0], h[1..], (b + CRLF)[..m]) == NeedMore
  {
    var h := [DOLLAR] + IntToDecimal(|b|);
    assert h[0] == DOLLAR && h[1..] == IntToDecimal(|b|);
    IncompleteBulk(b, m);
  }

  lemma {:induction false} IncompleteArrayLine(r: Reply, items: seq<Reply>, m: nat)
    requires r == Array(items) && Frameable(r)
    requires m < |Frames(r, items)|
    ensures var h := [STAR] + IntToDecimal(|items|);
            ParseTyped(h[0], h[1..], Frames(r, items)[..m]) == NeedMore
    decreases r, 0, |items| + 1
  {
    var h := [STAR] + IntToDecimal(|items|);
    assert h[0] == STAR && h[1..] == IntToDecimal(|items|);
    IncompleteItems(r, items, m);
    ParseIntDecimal(|items|);
  }

  /** A proper prefix of a run of framed items never yields all of them. */
  lemma {:induction false} IncompleteItems(parent: Reply, items: seq<Reply>, m: nat)
    requires forall i :: 0 <= i < |items| ==> items[i] < parent
    requires forall i :: 0 <= i < |items| ==> Frameable(items[i])
    requires m < |Frames(parent, items)|
    ensures ParseItems(Frames(parent, items)[..m], |items|) == NeedMore
    decreases parent, 0, |items|
  {
    if items == [] {
      assert false;
    } else {
      var f0, rest := Frame(items[0]), Frames(parent, items[1..]);
      assert Frames(parent, items) == f0 + rest;
      if m < |f0| {
        assert Frames(parent, items)[..m] == f0[..m];
        IncompleteFrame(items[0], m);
      } else {
        var m' := m - |f0|;
        var partial := rest[..m'];
        assert Frames(parent, items)[..m] == f0 + partial;
        ParseFramed(items[0], partial);
        IncompleteItems(parent, items[1..], m');
        assert ParseItems(partial, |items| - 1) == NeedMore by {
          assert |items[1..]| == |items| - 1;
        }
        ItemsNeedMore(f0 + partial, items[0], partial, |items|);
      }
    }
  }

  lemma ItemsNeedMore(buf: ByteString, first: Reply, rest: ByteString, n: nat)
    requires n > 0
    requires ParseReply(buf) == Done(first, rest)
    requires ParseItems(rest, n - 1) == NeedMore
    ensures ParseItems(buf, n) == NeedMore
  {
  }

  lemma IncompleteBulk(b: ByteString, m: nat)
    requires m < |b| + 2
    ensures ParseBulk(IntToDecimal(|b|), (b + CRLF)[..m]) == NeedMore
  {
    ParseIntDecimal(|b|);
  }

  // ---------------------------------------------------------------------------------
  // pack_command

  lemma {:induction false} BulkFramesAreFrames(parent: Reply, args: seq<Encoders.Value>, items: seq<Reply>)
    requires |items| == |args|
    requires forall i :: 0 <= i < |items| ==> items[i] == Bulk(Encoders.DefaultDumps(args[i]))
    requires forall i :: 0 <= i < |items| ==> items[i] < parent
    ensures BulkFrames(args) == Frames(parent, items)
  {
    if args != [] {
      BulkFramesAreFrames(parent, args[1..], items[1..]);
    }
  }

  /** `pack_command` emits `*`, the decimal argument count and CRLF, then for each
      argument in order `$`, its decimal byte length, CRLF, its bytes and CRLF: exactly
      the frame of an array of bulk strings. */
  lemma PackCommandIsArrayFrame(args: seq<Encoders.Value>)
    ensures PackCommand(args) == Frame(CommandReply(args))
  {
    var r := CommandReply(args);
    BulkFramesAreFrames(r, args, r.items);
    assert Frame(r) == [STAR] + IntToDecimal(|args|) + CRLF + Frames(r, r.items);
  }

  /** Decoding a packed command yields the array of its encoded arguments, whatever bytes
      the arguments hold, and leaves the following bytes untouched. */
  lemma PackCommandRoundTrip(args: seq<Encoders.Value>, tail: ByteString)
    ensures ParseReply(PackCommand(args) + tail) == Done(CommandReply(args), tail)
  {
    PackCommandIsArrayFrame(args);
    ParseFramed(CommandReply(args), tail);
  }
}
