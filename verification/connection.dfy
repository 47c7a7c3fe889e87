/** The lifecycle of `Connection`: lazy and idempotent `connect`, the AUTH and SELECT
    handshake of `on_connect`, `_send`, the write retried once by `send_packed_command`,
    and `read_response`, which raises the server's error replies.

    Sockets are an oracle. `Net` scripts the outcome of every connection attempt and
    every `sendall`, in order, and holds the bytes the server has written; an attempt the
    script does not cover fails. The packets delivered so far are logged in `wire`. */
module Connection {
  import opened Wrappers
  import opened Bytes
  import Encoders
  import Resp
  import RespExamples

  /** Why a `ConnectionError` was raised. */
  datatype Reason =
    | CannotConnect     // `_connect` raised a socket error
    | InvalidPassword   // AUTH was not answered with OK
    | InvalidDatabase   // SELECT was not answered with OK
    | WriteFailed       // `sendall` raised a socket error
    | RemoteClosed      // the reader met an empty line, or the stream ended
    | LoadingData       // `-LOADING ...`

  /** What the connection raises. `ResponseError` is the server's `-ERR` reply. */
  datatype Error =
    | ConnectionError(reason: Reason)
    | ResponseError(msg: ByteString)
    | InvalidResponse
    | ValueError

  /** The connection's own state: whether `_sock` is set, and its settings. */
  datatype Conn = Conn(sock: bool, password: Option<string>, db: int)

  /** The outcome of one `sendall`; `epipe` tells whether the error was EPIPE. */
  datatype SendEvent = Delivered | Broken(epipe: bool)

  /** The scripted world: outcomes of connection attempts (`true` for success) and of
      writes, the server's unread bytes, and the packets delivered so far. */
  datatype Net = Net(connects: seq<bool>, sends: seq<SendEvent>, input: ByteString, wire: seq<ByteString>)

  datatype Outcome = Outcome(conn: Conn, net: Net, error: Option<Error>)

  datatype ReadOutcome = ReadOutcome(conn: Conn, net: Net, result: Result<Resp.Reply, Error>)

  /** `if self.password:` -- neither `None` nor empty. */
  predicate HasPassword(c: Conn) {
    c.password.Some? && c.password.value != ""
  }

  /** `if self.db:` -- a database other than 0. */
  predicate Selects(c: Conn) {
    c.db != 0
  }

  /** A run only consumes the script and only appends to the wire log. */
  predicate Consumed(before: Net, after: Net) {
    |after.connects| <= |before.connects| && |after.sends| <= |before.sends| && before.wire <= after.wire
  }

  /** Only the socket flag of a connection ever changes. */
  predicate SameSettings(c: Conn, d: Conn) {
    c.password == d.password && c.db == d.db
  }

  const OK: ByteString := ['O' as int, 'K' as int]

  /** `response == 'OK'`: a byte string equal to `OK`, whichever reply type carried it. */
  predicate IsOk(r: Resp.Reply) {
    r == Resp.Status(OK) || r == Resp.Bulk(OK)
  }

  function AuthArgs(password: string): seq<Encoders.Value> {
    [Encoders.Text("AUTH"), Encoders.Text(password)]
  }

  function SelectArgs(db: int): seq<Encoders.Value> {
    [Encoders.Text("SELECT"), Encoders.Int(db)]
  }

  /** `disconnect`: forgets the socket. */
  function Disconnect(c: Conn): (d: Conn)
    ensures !d.sock && SameSettings(c, d)
  {
    c.(sock := false)
  }

  /** How a reader failure surfaces. */
  function ReadFailure(f: Resp.Failure): (e: Error)
    ensures e.ConnectionError? <==> f == Resp.SocketClosed || f == Resp.Loading
  {
    match f
    case SocketClosed => ConnectionError(RemoteClosed)
    case Loading => ConnectionError(LoadingData)
    case ProtocolError => InvalidResponse
    case BadInteger => ValueError
  }

  /** `Connection.read_response`: one reply from the server's bytes. An error reply is
      raised, never returned; a stream that ends before the reply is complete counts as
      closed by the remote end. A reply the reader rejects is consumed up to where it
      raised, as `readline` had consumed its line. */
  function ReadResponse(c: Conn, net: Net): (o: ReadOutcome)
    ensures o.conn == c
    ensures o.net.connects == net.connects && o.net.sends == net.sends && o.net.wire == net.wire
    ensures o.result.Ok? ==> !o.result.value.ResponseError?
    ensures o.result.Ok? ==> Resp.ParseReply(net.input) == Resp.Done(o.result.value, o.net.input)
    ensures forall m, rest :: Resp.ParseReply(net.input) == Resp.Done(Resp.ResponseError(m), rest) ==>
              o.result == Err(ResponseError(m))
    ensures Resp.ParseReply(net.input).NeedMore? ==> o.result == Err(ConnectionError(RemoteClosed)) && o.net == net
    ensures !Resp.ParseReply(net.input).NeedMore? ==> o.net.input == Resp.ParseReply(net.input).rest
    ensures Resp.ParseReply(net.input).Fail? ==> o.result == Err(ReadFailure(Resp.ParseReply(net.input).failure))
  {
    match Resp.ParseReply(net.input)
    case Done(v, rest) =>
      if v.ResponseError? then ReadOutcome(c, net.(input := rest), Err(ResponseError(v.msg)))
      else ReadOutcome(c, net.(input := rest), Ok(v))
    case NeedMore => ReadOutcome(c, net, Err(ConnectionError(RemoteClosed)))
    case Fail(f, rest) => ReadOutcome(c, net.(input := rest), Err(ReadFailure(f)))
  }

  /** `connect`: nothing when a socket exists; otherwise one connection attempt, then
      `on_connect`. A failing handshake raises with the socket still set: the code never
      disconnects there. */
  function Connect(c: Conn, net: Net): (o: Outcome)
    ensures Consumed(net, o.net) && SameSettings(c, o.conn)
    ensures c.sock ==> o == Outcome(c, net, None)
    ensures !c.sock && net.connects != [] ==> |o.net.connects| < |net.connects|
    ensures !c.sock && (net.connects == [] || !net.connects[0]) ==>
              o == Outcome(c, net.(connects := Drop(net.connects)), Some(ConnectionError(CannotConnect)))
    ensures o.error.None? ==> o.conn.sock
    decreases |net.connects|, 0
  {
    if c.sock then Outcome(c, net, None)
    else if net.connects == [] || !net.connects[0] then
      Outcome(c, net.(connects := Drop(net.connects)), Some(ConnectionError(CannotConnect)))
    else OnConnect(c.(sock := true), net.(connects := net.connects[1..]))
  }

  function Drop<T>(s: seq<T>): seq<T> {
    if s == [] then [] else s[1..]
  }

  /** `on_connect`: AUTH only with a password, SELECT only for a database other than 0,
      each answered with OK or raising. */
  function OnConnect(c: Conn, net: Net): (o: Outcome)
    requires c.sock
    ensures Consumed(net, o.net) && SameSettings(c, o.conn)
    ensures !HasPassword(c) && !Selects(c) ==> o == Outcome(c, net, None)
    ensures o.error.None? ==> o.conn.sock
    decreases |net.connects|, 4
  {
    var auth := if HasPassword(c) then Handshake(c, net, AuthArgs(c.password.value), InvalidPassword)
                else Outcome(c, net, None);
    if auth.error.Some? || !Selects(c) then auth
    else Handshake(auth.conn, auth.net, SelectArgs(c.db), InvalidDatabase)
  }

  /** `send_command(*args)` followed by `read_response() != 'OK'`. */
  function Handshake(c: Conn, net: Net, args: seq<Encoders.Value>, reason: Reason): (o: Outcome)
    requires c.sock
    ensures Consumed(net, o.net) && SameSettings(c, o.conn)
    ensures o.error.None? ==> o.conn.sock
    decreases |net.connects|, 3
  {
    var sent := SendPacked(c, net, Resp.PackCommand(args));
    if sent.error.Some? then sent
    else
      var read := ReadResponse(sent.conn, sent.net);
      if read.result.Err? then Outcome(read.conn, read.net, Some(read.result.error))
      else if IsOk(read.result.value) then Outcome(read.conn, read.net, None)
      else Outcome(read.conn, read.net, Some(ConnectionError(reason)))
  }

  /** `send_packed_command`: one `_send`; on a `ConnectionError`, disconnect and one more
      `_send`, whose failure propagates. Other errors propagate at once. */
  function SendPacked(c: Conn, net: Net, packet: ByteString): (o: Outcome)
    ensures Consumed(net, o.net) && SameSettings(c, o.conn)
    ensures o.error.None? ==> o.conn.sock && |o.net.wire| > |net.wire| && o.net.wire[|o.net.wire| - 1] == packet
    decreases |net.connects|, 2
  {
    var first := Send(c, net, packet);
    if first.error.Some? && first.error.value.ConnectionError? then
      Send(Disconnect(first.conn), first.net, packet)
    else first
  }

  /** `_send`: connects first when there is no socket, then one `sendall`. An EPIPE
      disconnects; every write failure raises a `ConnectionError`. */
  function Send(c: Conn, net: Net, packet: ByteString): (o: Outcome)
    ensures Consumed(net, o.net) && SameSettings(c, o.conn)
    ensures c.sock ==> o.net.connects == net.connects
    ensures !c.sock && net.connects != [] ==> |o.net.connects| < |net.connects|
    ensures c.sock ==> |o.net.sends| == |net.sends| - 1 || (net.sends == [] && o.net.sends == [])
    ensures c.sock && net.sends != [] && net.sends[0].Delivered? ==>
              o == Outcome(c, net.(sends := net.sends[1..], wire := net.wire + [packet]), None)
    ensures c.sock && net.sends != [] && net.sends[0].Broken? ==>
              o == Outcome(if net.sends[0].epipe then Disconnect(c) else c, net.(sends := net.sends[1..]),
                           Some(ConnectionError(WriteFailed)))
    ensures o.error.None? ==>
              o.conn.sock && |o.net.wire| > |net.wire| && o.net.wire[|o.net.wire| - 1] == packet
    decreases |net.connects|, 1
  {
    var con := if c.sock then Outcome(c, net, None) else Connect(c, net);
    if con.error.Some? then con
    else
      var n := con.net;
      if n.sends != [] && n.sends[0].Delivered? then
        Outcome(con.conn, n.(sends := n.sends[1..], wire := n.wire + [packet]), None)
      else
        var epipe := n.sends != [] && n.sends[0].epipe;
        Outcome(if epipe then Disconnect(con.conn) else con.conn, n.(sends := Drop(n.sends)),
                Some(ConnectionError(WriteFailed)))
  }

  /** `send_command(*args)`: packs, then sends with one retry. What reaches the server
      decodes as the array of the encoded arguments. */
  function SendCommand(c: Conn, net: Net, args: seq<Encoders.Value>): (o: Outcome)
    ensures Consumed(net, o.net) && SameSettings(c, o.conn)
    ensures o.error.None? ==>
              o.conn.sock && |o.net.wire| > |net.wire| &&
              Resp.ParseReply(o.net.wire[|o.net.wire| - 1]) == Resp.Done(Resp.CommandReply(args), [])
  {
    var packet := Resp.PackCommand(args);
    Resp.PackCommandRoundTrip(args, []);
    assert packet + [] == packet;
    SendPacked(c, net, packet)
  }

  // ---------------------------------------------------------------------------------
  // The handshake

  /** The packets `on_connect` sends, in order: AUTH with a password, then SELECT for a
      database other than 0. */
  function HandshakePackets(c: Conn): seq<ByteString> {
    (if HasPassword(c) then [Resp.PackCommand(AuthArgs(c.password.value))] else []) +
    (if Selects(c) then [Resp.PackCommand(SelectArgs(c.db))] else [])
  }

  /** `+OK\r\n`, the framed OK status. */
  const OK_FRAME: ByteString := [Resp.PLUS] + OK + CRLF

  /** `+OK\r\n` repeated `k` times. */
  function OkFrames(k: nat): ByteString {
    if k == 0 then [] else OK_FRAME + OkFrames(k - 1)
  }

  lemma ParseOk(tail: ByteString)
    ensures Resp.ParseReply(OK_FRAME + tail) == Resp.Done(Resp.Status(OK), tail)
  {
    assert Resp.Frame(Resp.Status(OK)) == OK_FRAME;
    Resp.ParseFramed(Resp.Status(OK), tail);
  }

  /** One handshake step over a live socket whose write goes through and whose reply
      is read from `net.input`. */
  lemma HandshakeStep(c: Conn, net: Net, args: seq<Encoders.Value>, reason: Reason)
    requires c.sock && net.sends != [] && net.sends[0].Delivered?
    ensures var next := net.(sends := net.sends[1..], wire := net.wire + [Resp.PackCommand(args)]);
            var read := ReadResponse(c, next);
            Handshake(c, net, args, reason) ==
              if read.result.Err? then Outcome(c, read.net, Some(read.result.error))
              else if IsOk(read.result.value) then Outcome(c, read.net, None)
              else Outcome(c, read.net, Some(ConnectionError(reason)))
  {
  }

  /** A handshake step whose write goes through and whose reply is OK. */
  lemma HandshakeOk(c: Conn, net: Net, args: seq<Encoders.Value>, reason: Reason, tail: ByteString)
    requires c.sock && net.sends != [] && net.sends[0].Delivered?
    requires net.input == OK_FRAME + tail
    ensures Handshake(c, net, args, reason) ==
              Outcome(c, net.(sends := net.sends[1..], input := tail, wire := net.wire + [Resp.PackCommand(args)]), None)
  {
    ParseOk(tail);
    HandshakeStep(c, net, args, reason);
  }

  /** Connecting when every handshake write goes through and every reply is OK: the
      socket is set, exactly the handshake packets are delivered, in order, and exactly
      their replies are consumed. */
  lemma ConnectHandshake(c: Conn, net: Net, tail: ByteString)
    requires !c.sock && net.connects != [] && net.connects[0]
    requires |HandshakePackets(c)| <= |net.sends|
    requires forall i :: 0 <= i < |HandshakePackets(c)| ==> net.sends[i].Delivered?
    requires net.input == OkFrames(|HandshakePackets(c)|) + tail
    ensures Connect(c, net) ==
              Outcome(c.(sock := true), AfterHandshake(c, net.(connects := net.connects[1..]), tail), None)
  {
    OnConnectHandshake(c.(sock := true), net.(connects := net.connects[1..]), tail);
  }

  /** The network once every handshake packet went through and every reply was OK. */
  function AfterHandshake(c: Conn, net: Net, tail: ByteString): Net
    requires |HandshakePackets(c)| <= |net.sends|
  {
    net.(sends := net.sends[|HandshakePackets(c)|..], input := tail, wire := net.wire + HandshakePackets(c))
  }

  lemma OnConnectHandshake(c: Conn, net: Net, tail: ByteString)
    requires c.sock
    requires |HandshakePackets(c)| <= |net.sends|
    requires forall i :: 0 <= i < |HandshakePackets(c)| ==> net.sends[i].Delivered?
    requires net.input == OkFrames(|HandshakePackets(c)|) + tail
    ensures OnConnect(c, net) == Outcome(c, AfterHandshake(c, net, tail), None)
  {
    if HasPassword(c) && Selects(c) {
      assert |HandshakePackets(c)| == 2;
      assert net.sends[0].Delivered? && net.sends[1].Delivered?;
      OkFramesTwo(tail);
      OnConnectBoth(c, net, tail);
    } else if HasPassword(c) {
      assert |HandshakePackets(c)| == 1;
      assert net.sends[0].Delivered?;
      OkFramesOne(tail);
      OnConnectAuth(c, net, tail);
    } else if Selects(c) {
      assert |HandshakePackets(c)| == 1;
      assert net.sends[0].Delivered?;
      OkFramesOne(tail);
      OnConnectSelect(c, net, tail);
    } else {
      OnConnectNothing(c, net, tail);
    }
  }

  lemma OkFramesOne(tail: ByteString)
    ensures OkFrames(1) + tail == OK_FRAME + tail
  {
    assert OkFrames(1) == OK_FRAME + [];
  }

  lemma OkFramesTwo(tail: ByteString)
    ensures OkFrames(2) + tail == OK_FRAME + (OK_FRAME + tail)
  {
    assert OkFrames(2) == OK_FRAME + (OK_FRAME + []);
  }

  lemma OnConnectNothing(c: Conn, net: Net, tail: ByteString)
    requires c.sock && !HasPassword(c) && !Selects(c)
    requires net.input == OkFrames(0) + tail
    ensures OnConnect(c, net) == Outcome(c, AfterHandshake(c, net, tail), None)
  {
    assert HandshakePackets(c) == [];
    assert net.sends[0..] == net.sends && net.wire + [] == net.wire && net.input == tail;
  }

  lemma OnConnectAuth(c: Conn, net: Net, tail: ByteString)
    requires c.sock && HasPassword(c) && !Selects(c)
    requires net.sends != [] && net.sends[0].Delivered?
    requires net.input == OK_FRAME + tail
    ensures |HandshakePackets(c)| == 1
    ensures OnConnect(c, net) == Outcome(c, AfterHandshake(c, net, tail), None)
  {
    assert HandshakePackets(c) == [Resp.PackCommand(AuthArgs(c.password.value))];
    HandshakeOk(c, net, AuthArgs(c.password.value), InvalidPassword, tail);
  }

  lemma OnConnectSelect(c: Conn, net: Net, tail: ByteString)
    requires c.sock && !HasPassword(c) && Selects(c)
    requires net.sends != [] && net.sends[0].Delivered?
    requires net.input == OK_FRAME + tail
    ensures |HandshakePackets(c)| == 1
    ensures OnConnect(c, net) == Outcome(c, AfterHandshake(c, net, tail), None)
  {
    assert HandshakePackets(c) == [Resp.PackCommand(SelectArgs(c.db))];
    HandshakeOk(c, net, SelectArgs(c.db), InvalidDatabase, tail);
  }

  /** With a password and a database, once AUTH went through `on_connect` goes on with
      SELECT from where AUTH left the network. */
  lemma OnConnectAfterAuth(c: Conn, net: Net, n1: Net)
    requires c.sock && HasPassword(c) && Selects(c)
    requires Handshake(c, net, AuthArgs(c.password.value), InvalidPassword) == Outcome(c, n1, None)
    ensures OnConnect(c, net) == Handshake(c, n1, SelectArgs(c.db), InvalidDatabase)
  {
  }

  lemma TwoPackets(net: Net, p1: ByteString, p2: ByteString, mid: ByteString, tail: ByteString)
    requires |net.sends| >= 2
    ensures var n1 := net.(sends := net.sends[1..], input := mid, wire := net.wire + [p1]);
            n1.(sends := n1.sends[1..], input := tail, wire := n1.wire + [p2]) ==
              net.(sends := net.sends[2..], input := tail, wire := net.wire + ([p1] + [p2]))
  {
    assert net.sends[1..][1..] == net.sends[2..];
    assert net.wire + [p1] + [p2] == net.wire + ([p1] + [p2]);
  }

  lemma OnConnectBoth(c: Conn, net: Net, tail: ByteString)
    requires c.sock && HasPassword(c) && Selects(c)
    requires |net.sends| >= 2 && net.sends[0].Delivered? && net.sends[1].Delivered?
    requires net.input == OK_FRAME + (OK_FRAME + tail)
    ensures |HandshakePackets(c)| == 2
    ensures OnConnect(c, net) == Outcome(c, AfterHandshake(c, net, tail), None)
  {
    var auth, select := AuthArgs(c.password.value), SelectArgs(c.db);
    var p1, p2 := Resp.PackCommand(auth), Resp.PackCommand(select);
    var n1 := net.(sends := net.sends[1..], input := OK_FRAME + tail, wire := net.wire + [p1]);
    HandshakeOk(c, net, auth, InvalidPassword, OK_FRAME + tail);
    OnConnectAfterAuth(c, net, n1);
    HandshakeOk(c, n1, select, InvalidDatabase, tail);
    TwoPackets(net, p1, p2, OK_FRAME + tail, tail);
    assert HandshakePackets(c) == [p1] + [p2];
  }

  /** A reply other than OK to AUTH raises `ConnectionError('Invalid Password')`, and the
      socket stays set. */
  lemma AuthRejected(c: Conn, net: Net, v: Resp.Reply, rest: ByteString)
    requires !c.sock && HasPassword(c) && net.connects != [] && net.connects[0]
    requires net.sends != [] && net.sends[0].Delivered?
    requires Resp.ParseReply(net.input) == Resp.Done(v, rest) && !v.ResponseError? && !IsOk(v)
    ensures Connect(c, net).error == Some(ConnectionError(InvalidPassword))
    ensures Connect(c, net).conn.sock
  {
    HandshakeStep(c.(sock := true), net.(connects := net.connects[1..]), AuthArgs(c.password.value), InvalidPassword);
  }

  /** Without a password, a reply other than OK to SELECT raises
      `ConnectionError('Invalid Database')`, and the socket stays set. */
  lemma SelectRejected(c: Conn, net: Net, v: Resp.Reply, rest: ByteString)
    requires !c.sock && !HasPassword(c) && Selects(c) && net.connects != [] && net.connects[0]
    requires net.sends != [] && net.sends[0].Delivered?
    requires Resp.ParseReply(net.input) == Resp.Done(v, rest) && !v.ResponseError? && !IsOk(v)
    ensures Connect(c, net).error == Some(ConnectionError(InvalidDatabase))
    ensures Connect(c, net).conn.sock
  {
    HandshakeStep(c.(sock := true), net.(connects := net.connects[1..]), SelectArgs(c.db), InvalidDatabase);
  }

  /** With a password and a database, AUTH answered OK and SELECT answered otherwise
      raises `ConnectionError('Invalid Database')` after both packets went out, and the
      socket stays set. */
  lemma SelectAfterAuthRejected(c: Conn, net: Net, tail: ByteString, v: Resp.Reply, rest: ByteString)
    requires !c.sock && HasPassword(c) && Selects(c) && net.connects != [] && net.connects[0]
    requires |net.sends| >= 2 && net.sends[0].Delivered? && net.sends[1].Delivered?
    requires net.input == OK_FRAME + tail
    requires Resp.ParseReply(tail) == Resp.Done(v, rest) && !v.ResponseError? && !IsOk(v)
    ensures Connect(c, net).error == Some(ConnectionError(InvalidDatabase))
    ensures Connect(c, net).conn.sock
    ensures Connect(c, net).net.wire == net.wire + HandshakePackets(c)
  {
    OnConnectSelectRejected(c.(sock := true), net.(connects := net.connects[1..]), tail, v, rest);
  }

  lemma OnConnectSelectRejected(c: Conn, net: Net, tail: ByteString, v: Resp.Reply, rest: ByteString)
    requires c.sock && HasPassword(c) && Selects(c)
    requires |net.sends| >= 2 && net.sends[0].Delivered? && net.sends[1].Delivered?
    requires net.input == OK_FRAME + tail
    requires Resp.ParseReply(tail) == Resp.Done(v, rest) && !v.ResponseError? && !IsOk(v)
    ensures OnConnect(c, net) ==
              Outcome(c, net.(sends := net.sends[2..], input := rest, wire := net.wire + HandshakePackets(c)),
                      Some(ConnectionError(InvalidDatabase)))
  {
    var auth, select := AuthArgs(c.password.value), SelectArgs(c.db);
    var p1, p2 := Resp.PackCommand(auth), Resp.PackCommand(select);
    var n1 := net.(sends := net.sends[1..], input := tail, wire := net.wire + [p1]);
    HandshakeOk(c, net, auth, InvalidPassword, tail);
    OnConnectAfterAuth(c, net, n1);
    HandshakeRejected(c, n1, select, InvalidDatabase, v, rest);
    TwoPackets(net, p1, p2, tail, rest);
    assert HandshakePackets(c) == [p1] + [p2];
  }

  /** A handshake step whose write goes through and whose reply is neither OK nor an
      error reply raises the step's `ConnectionError`. */
  lemma HandshakeRejected(c: Conn, net: Net, args: seq<Encoders.Value>, reason: Reason, v: Resp.Reply, rest: ByteString)
    requires c.sock && net.sends != [] && net.sends[0].Delivered?
    requires Resp.ParseReply(net.input) == Resp.Done(v, rest) && !v.ResponseError? && !IsOk(v)
    ensures Handshake(c, net, args, reason) ==
              Outcome(c, net.(sends := net.sends[1..], input := rest, wire := net.wire + [Resp.PackCommand(args)]),
                      Some(ConnectionError(reason)))
  {
    HandshakeStep(c, net, args, reason);
  }

  /** `-LOADING` or an empty line in answer to AUTH raises a `ConnectionError`, so
      `send_packed_command` disconnects and tries once more. The failing line was
      consumed, so the second connection's AUTH reads the next reply: an OK lets the
      packet through. Both AUTH packets and the packet are on the wire. */
  lemma RetryAfterReadFailure(c: Conn, net: Net, packet: ByteString, f: Resp.Failure, tail: ByteString)
    requires !c.sock && HasPassword(c) && !Selects(c)
    requires |net.connects| >= 2 && net.connects[0] && net.connects[1]
    requires |net.sends| >= 3 && net.sends[0].Delivered? && net.sends[1].Delivered? && net.sends[2].Delivered?
    requires f == Resp.Loading || f == Resp.SocketClosed
    requires Resp.ParseReply(net.input) == Resp.Fail(f, OK_FRAME + tail)
    ensures var auth := Resp.PackCommand(AuthArgs(c.password.value));
            SendPacked(c, net, packet) ==
              Outcome(c.(sock := true),
                      net.(connects := net.connects[2..], sends := net.sends[3..], input := tail,
                           wire := net.wire + [auth, auth, packet]),
                      None)
  {
    var auth := Resp.PackCommand(AuthArgs(c.password.value));
    var n2 := net.(connects := net.connects[1..], sends := net.sends[1..], input := OK_FRAME + tail,
                   wire := net.wire + [auth]);
    FirstAuthFails(c, net, packet, f, tail);
    SecondAuthDelivers(c, n2, packet, tail);
    assert net.connects[1..][1..] == net.connects[2..];
    assert net.sends[1..][2..] == net.sends[3..];
    assert net.wire + [auth] + [auth] + [packet] == net.wire + [auth, auth, packet];
  }

  /** The first attempt: the connection is made, AUTH goes out and its answer raises. */
  lemma FirstAuthFails(c: Conn, net: Net, packet: ByteString, f: Resp.Failure, tail: ByteString)
    requires !c.sock && HasPassword(c) && !Selects(c)
    requires net.connects != [] && net.connects[0]
    requires net.sends != [] && net.sends[0].Delivered?
    requires f == Resp.Loading || f == Resp.SocketClosed
    requires Resp.ParseReply(net.input) == Resp.Fail(f, OK_FRAME + tail)
    ensures Send(c, net, packet) ==
              Outcome(c.(sock := true),
                      net.(connects := net.connects[1..], sends := net.sends[1..], input := OK_FRAME + tail,
                           wire := net.wire + [Resp.PackCommand(AuthArgs(c.password.value))]),
                      Some(ReadFailure(f)))
  {
    var c1, net0 := c.(sock := true), net.(connects := net.connects[1..]);
    var auth := AuthArgs(c.password.value);
    var o := Outcome(c1, net0.(sends := net0.sends[1..], input := OK_FRAME + tail, wire := net0.wire + [Resp.PackCommand(auth)]),
                     Some(ReadFailure(f)));
    HandshakeReadFails(c1, net0, auth, InvalidPassword, f, OK_FRAME + tail);
    assert OnConnect(c1, net0) == o;
    assert Connect(c, net) == o;
  }

  /** A handshake step whose write goes through and whose reply the reader rejects
      raises the reader's error, with the rejected reply consumed. */
  lemma HandshakeReadFails(c: Conn, net: Net, args: seq<Encoders.Value>, reason: Reason, f: Resp.Failure, rest: ByteString)
    requires c.sock && net.sends != [] && net.sends[0].Delivered?
    requires Resp.ParseReply(net.input) == Resp.Fail(f, rest)
    ensures Handshake(c, net, args, reason) ==
              Outcome(c, net.(sends := net.sends[1..], input := rest, wire := net.wire + [Resp.PackCommand(args)]),
                      Some(ReadFailure(f)))
  {
    HandshakeStep(c, net, args, reason);
  }

  /** The second attempt over a fresh connection: AUTH is answered OK and the packet
      goes out. */
  lemma SecondAuthDelivers(c: Conn, net: Net, packet: ByteString, tail: ByteString)
    requires !c.sock && HasPassword(c) && !Selects(c)
    requires net.connects != [] && net.connects[0]
    requires |net.sends| >= 2 && net.sends[0].Delivered? && net.sends[1].Delivered?
    requires net.input == OK_FRAME + tail
    ensures var auth := Resp.PackCommand(AuthArgs(c.password.value));
            Send(c, net, packet) ==
              Outcome(c.(sock := true),
                      net.(connects := net.connects[1..], sends := net.sends[2..], input := tail,
                           wire := net.wire + [auth] + [packet]),
                      None)
  {
    var c1, net0 := c.(sock := true), net.(connects := net.connects[1..]);
    OnConnectAuth(c1, net0, tail);
    assert net.sends[1..][1..] == net.sends[2..];
  }

  /** The server answering AUTH with `-LOADING dataset` on the first connection and OK on
      the second: the packet is delivered. */
  lemma LoadingThenOk(c: Conn, net: Net, packet: ByteString, tail: ByteString)
    requires !c.sock && HasPassword(c) && !Selects(c)
    requires |net.connects| >= 2 && net.connects[0] && net.connects[1]
    requires |net.sends| >= 3 && net.sends[0].Delivered? && net.sends[1].Delivered? && net.sends[2].Delivered?
    requires net.input == RespExamples.LOADING_LINE + CRLF + (OK_FRAME + tail)
    ensures var o := SendPacked(c, net, packet);
            var auth := Resp.PackCommand(AuthArgs(c.password.value));
            o.error.None? && o.conn.sock && o.net.input == tail && o.net.wire == net.wire + [auth, auth, packet]
  {
    RespExamples.LoadingReply(OK_FRAME + tail);
    RetryAfterReadFailure(c, net, packet, Resp.Loading, tail);
  }

  /** An error reply to the handshake is raised as that response error. */
  lemma AuthErrorReply(c: Conn, net: Net, msg: ByteString, rest: ByteString)
    requires !c.sock && HasPassword(c) && net.connects != [] && net.connects[0]
    requires net.sends != [] && net.sends[0].Delivered?
    requires Resp.ParseReply(net.input) == Resp.Done(Resp.ResponseError(msg), rest)
    ensures Connect(c, net).error == Some(ResponseError(msg))
  {
    HandshakeStep(c.(sock := true), net.(connects := net.connects[1..]), AuthArgs(c.password.value), InvalidPassword);
  }

  // ---------------------------------------------------------------------------------
  // Writing with one retry

  /** A connection with neither password nor database: connecting sends nothing. */
  predicate Plain(c: Conn) {
    !HasPassword(c) && !Selects(c)
  }

  /** With no handshake, `send_packed_command` makes at most two write attempts and two
      connection attempts, and the packet is delivered exactly when no error is raised. */
  lemma PlainSendPacked(c: Conn, net: Net, packet: ByteString)
    requires Plain(c)
    ensures var o := SendPacked(c, net, packet);
            |net.sends| - |o.net.sends| <= 2 && |net.connects| - |o.net.connects| <= 2 &&
            o.net.wire == net.wire + (if o.error.None? then [packet] else [])
  {
    var first := Send(c, net, packet);
    var o := SendPacked(c, net, packet);
    PlainSend(c, net, packet);
    if first.error.Some? && first.error.value.ConnectionError? {
      var second := Send(Disconnect(first.conn), first.net, packet);
      assert o == second;
      assert Plain(Disconnect(first.conn));
      PlainSend(Disconnect(first.conn), first.net, packet);
      assert first.net.wire == net.wire;
    } else {
      assert o == first;
    }
  }

  /** With no handshake, `_send` makes at most one write attempt and one connection
      attempt; it delivers the packet exactly when no error is raised. */
  lemma PlainSend(c: Conn, net: Net, packet: ByteString)
    requires Plain(c)
    ensures var o := Send(c, net, packet);
            |net.sends| - |o.net.sends| <= 1 && |net.connects| - |o.net.connects| <= 1 &&
            o.net.wire == net.wire + (if o.error.None? then [packet] else []) &&
            Plain(o.conn)
  {
    if !c.sock && net.connects != [] && net.connects[0] {
      assert Connect(c, net) == Outcome(c.(sock := true), net.(connects := net.connects[1..]), None);
    }
  }

  /** A write that fails once over a live socket is retried after a reconnect, and the
      second attempt delivers the packet. */
  lemma RetryOnce(c: Conn, net: Net, packet: ByteString, epipe: bool)
    requires Plain(c) && c.sock
    requires |net.sends| >= 2 && net.sends[0] == Broken(epipe) && net.sends[1].Delivered?
    requires net.connects != [] && net.connects[0]
    ensures SendPacked(c, net, packet) ==
              Outcome(c, net.(connects := net.connects[1..], sends := net.sends[2..], wire := net.wire + [packet]), None)
  {
    var n1 := net.(sends := net.sends[1..]);
    assert Send(c, net, packet) == Outcome(if epipe then Disconnect(c) else c, n1, Some(ConnectionError(WriteFailed)));
    assert Connect(Disconnect(c), n1) == Outcome(c, n1.(connects := net.connects[1..]), None);
    assert net.sends[1..][1..] == net.sends[2..];
  }

  /** When the retried write fails too, that failure propagates: two attempts, nothing
      delivered. */
  lemma SecondFailurePropagates(c: Conn, net: Net, packet: ByteString, e1: bool, e2: bool)
    requires Plain(c) && c.sock
    requires |net.sends| >= 2 && net.sends[0] == Broken(e1) && net.sends[1] == Broken(e2)
    requires net.connects != [] && net.connects[0]
    ensures var o := SendPacked(c, net, packet);
            o.error == Some(ConnectionError(WriteFailed)) && o.net.sends == net.sends[2..] && o.net.wire == net.wire &&
            o.conn.sock == !e2
  {
    var n1 := net.(sends := net.sends[1..]);
    assert Send(c, net, packet) == Outcome(if e1 then Disconnect(c) else c, n1, Some(ConnectionError(WriteFailed)));
    assert Connect(Disconnect(c), n1) == Outcome(c, n1.(connects := net.connects[1..]), None);
    assert net.sends[1..][1..] == net.sends[2..];
  }

  /** A write that goes through the first time is not repeated. */
  lemma FirstAttemptDelivers(c: Conn, net: Net, packet: ByteString)
    requires c.sock && net.sends != [] && net.sends[0].Delivered?
    ensures SendPacked(c, net, packet) ==
              Outcome(c, net.(sends := net.sends[1..], wire := net.wire + [packet]), None)
  {
  }

  /** `_send` connects lazily: without a socket it first makes one connection attempt. */
  lemma LazyConnect(c: Conn, net: Net, packet: ByteString)
    requires !c.sock && net.connects != [] && !net.connects[0]
    ensures Send(c, net, packet) ==
              Outcome(c, net.(connects := net.connects[1..]), Some(ConnectionError(CannotConnect)))
  {
  }
}
