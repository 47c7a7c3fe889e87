/** Concrete replies the reader must decode, mirroring the parser's test cases
    (`tests/py/backends/redis/parser.py`). Buffers are written byte by byte. */
module RespExamples {
  import opened Wrappers
  import opened Bytes
  import opened Resp

  /** `random error` */
  const RANDOM_ERROR: ByteString := [114, 97, 110, 100, 111, 109, 32, 101, 114, 114, 111, 114]

  /** `ERR ` and `NOSCRIPT ` subtypes of an error line, and an unknown leading byte. */
  const ERR_BODY: ByteString := ERR + RANDOM_ERROR
  const ERR_LINE: ByteString := [MINUS] + ERR_BODY
  const NOSCRIPT_BODY: ByteString := [78, 79, 83, 67, 82, 73, 80, 84, 32] + RANDOM_ERROR
  const NOSCRIPT_LINE: ByteString := [MINUS] + NOSCRIPT_BODY
  const LOADING_BODY: ByteString := LOADING + [100, 97, 116, 97, 115, 101, 116]
  const LOADING_LINE: ByteString := [MINUS] + LOADING_BODY
  const UNKNOWN_LINE: ByteString := [112, 120, 120, 120, 120]

  /** The 31-byte pickle the binary test carries, with a NUL and bytes above 0x7F. */
  const PAYLOAD: ByteString :=
    [128, 2, 93, 113, 0, 40, 88, 4, 0, 0, 0, 99, 105, 97, 111, 113, 1, 88, 5, 0, 0, 0,
     112, 105, 112, 112, 111, 113, 2, 101, 46]

  const MINUS_ONE: ByteString := ['-' as int, '1' as int]
  const ZERO: ByteString := ['0' as int]

  lemma ParseMinusOne()
    ensures ParseInt(MINUS_ONE) == Some(-1)
  {
    var one: ByteString := ['1' as int];
    assert MINUS_ONE[1..] == one && one[..0] == [];
    assert AllDigits(one) && DigitsValue(one) == 1;
  }

  lemma ParseZero()
    ensures ParseInt(ZERO) == Some(0)
  {
    assert ZERO[..0] == [];
    assert AllDigits(ZERO) && DigitsValue(ZERO) == 0;
  }

  /** `$-1\r\n` is `None`, and the buffer is consumed. */
  lemma NullBulk()
    ensures ParseReply([DOLLAR] + MINUS_ONE + CRLF) == Done(Null, [])
  {
    assert [DOLLAR] + MINUS_ONE + CRLF == [DOLLAR] + MINUS_ONE + CRLF + [];
    ParseLine([DOLLAR] + MINUS_ONE, []);
    assert ([DOLLAR] + MINUS_ONE)[1..] == MINUS_ONE;
    ParseMinusOne();
  }

  /** `*-1\r\n` is `None` as well. */
  lemma NullArray()
    ensures ParseReply([STAR] + MINUS_ONE + CRLF) == Done(Null, [])
  {
    assert [STAR] + MINUS_ONE + CRLF == [STAR] + MINUS_ONE + CRLF + [];
    ParseLine([STAR] + MINUS_ONE, []);
    assert ([STAR] + MINUS_ONE)[1..] == MINUS_ONE;
    ParseMinusOne();
  }

  /** `$0\r\n\r\n` is the empty byte string, and nothing is left in the buffer. */
  lemma EmptyBulk()
    ensures ParseReply([DOLLAR] + ZERO + CRLF + CRLF) == Done(Bulk([]), [])
  {
    ParseLine([DOLLAR] + ZERO, CRLF);
    assert ([DOLLAR] + ZERO)[1..] == ZERO;
    ParseZero();
    assert ReadBulk(CRLF, 0) == Done([], []);
    assert ParseBulk(ZERO, CRLF) == Done(Bulk([]), []);
  }

  /** `*0\r\n` is the empty list, and nothing is left in the buffer. */
  lemma EmptyArray()
    ensures ParseReply([STAR] + ZERO + CRLF) == Done(Array([]), [])
  {
    assert [STAR] + ZERO + CRLF == [STAR] + ZERO + CRLF + [];
    ParseLine([STAR] + ZERO, []);
    assert ([STAR] + ZERO)[1..] == ZERO;
    ParseZero();
  }

  /** `pxxxx\r\n`: an unknown leading byte is a protocol error. */
  lemma UnknownKind()
    ensures ParseReply(UNKNOWN_LINE + CRLF) == Fail(ProtocolError, [])
  {
    assert UNKNOWN_LINE + CRLF == UNKNOWN_LINE + CRLF + [];
    ParseLine(UNKNOWN_LINE, []);
  }

  /** `-ERR random error\r\n` is a response error carrying `random error`. */
  lemma ErrReply()
    ensures ParseReply(ERR_LINE + CRLF) == Done(ResponseError(RANDOM_ERROR), [])
  {
    assert ERR_LINE + CRLF == ERR_LINE + CRLF + [];
    assert LF !in ERR_LINE;
    ParseLine(ERR_LINE, []);
    assert ERR_LINE[1..] == ERR_BODY;
    assert ERR_BODY[..|ERR|] == ERR;
    assert ERR_BODY[|ERR|..] == RANDOM_ERROR;
    assert ParseError(ERR_BODY, []) == Done(ResponseError(RANDOM_ERROR), []);
  }

  /** `-NOSCRIPT random error\r\n` is not recognised by this reader: it is a protocol
      error, not a response error. */
  lemma NoScriptReply()
    ensures ParseReply(NOSCRIPT_LINE + CRLF) == Fail(ProtocolError, [])
  {
    assert NOSCRIPT_LINE + CRLF == NOSCRIPT_LINE + CRLF + [];
    assert LF !in NOSCRIPT_LINE;
    ParseLine(NOSCRIPT_LINE, []);
    assert NOSCRIPT_LINE[1..] == NOSCRIPT_BODY;
    assert NOSCRIPT_BODY[0] != ERR[0] && NOSCRIPT_BODY[0] != LOADING[0];
    assert !StartsWith(NOSCRIPT_BODY, ERR) && !StartsWith(NOSCRIPT_BODY, LOADING);
    assert ParseError(NOSCRIPT_BODY, []) == Fail(ProtocolError, []);
  }

  /** `-LOADING ...` raises the connection error, and the line is consumed: what the
      server sent after it is still to be read. */
  lemma LoadingReply(tail: ByteString)
    ensures ParseReply(LOADING_LINE + CRLF + tail) == Fail(Loading, tail)
  {
    assert LF !in LOADING_LINE;
    ParseLine(LOADING_LINE, tail);
    assert LOADING_LINE[1..] == LOADING_BODY;
    assert LOADING_BODY[0] != ERR[0];
    assert !StartsWith(LOADING_BODY, ERR);
    assert LOADING_BODY[..|LOADING|] == LOADING;
    assert ParseError(LOADING_BODY, tail) == Fail(Loading, tail);
  }

  /** A bare CRLF is an empty line: the socket was closed on the remote end. The line is
      consumed. */
  lemma EmptyLine(tail: ByteString)
    ensures ParseReply(CRLF + tail) == Fail(SocketClosed, tail)
  {
    assert ReadLine(CRLF + tail) == Done([], tail) by {
      assert FindLF(CRLF + tail, 0) == Some(1);
    }
  }

  /** A bulk payload is taken by its length, whatever bytes it holds, and the buffer is
      left empty. */
  lemma BinaryBulk()
    ensures ParseReply(Frame(Bulk(PAYLOAD))) == Done(Bulk(PAYLOAD), [])
  {
    assert Frame(Bulk(PAYLOAD)) == Frame(Bulk(PAYLOAD)) + [];
    ParseFramed(Bulk(PAYLOAD), []);
  }
}
