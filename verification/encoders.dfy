/** The simple field-value encoders: `Default` (its Python 3 branch), `Bytes`, `NoEncoder`
    and `PythonPickle` with the pickler and unpickler as parameters. The charset is strict
    UTF-8. */
module Encoders {
  import opened Wrappers
  import opened Bytes
  import Utf8

  /** The Python values handed to an encoder. */
  datatype Value =
    | BytesValue(b: ByteString)
    | Text(s: string)
    | Int(i: int)
    | Bool(v: bool)
    | NoneValue

  datatype EncodeError =
    | UnicodeDecodeError   // strict decoding met a malformed byte sequence
    | AttributeError       // a value without an `encode` method
    | Raised(name: string) // an exception of the named class, passed on unchanged

  /** `str(x)` for a value that is not a byte string. */
  function Str(v: Value): (r: string)
    requires !v.BytesValue?
    ensures v.Text? ==> r == v.s
    ensures v.Int? ==> IsAscii(r) && ParseInt(Ascii(r)) == Some(v.i)
  {
    match v
    case Text(s) => s
    case Int(i) => ParseIntDecimal(i); IntText(i)
    case Bool(b) => if b then "True" else "False"
    case NoneValue => "None"
  }

  /** `Default.dumps`: byte strings pass through, anything else is `str(x)` in UTF-8. */
  function DefaultDumps(v: Value): (r: ByteString)
    ensures v.BytesValue? ==> r == v.b
    ensures !v.BytesValue? ==> Utf8.Decode(r) == Some(Str(v))
  {
    if v.BytesValue? then v.b
    else
      Utf8.DecodeEncode(Str(v));
      Utf8.Encode(Str(v))
  }

  /** `Default.loads`: byte strings are decoded strictly, anything else becomes `str(x)`. */
  function DefaultLoads(v: Value): (r: Result<string, EncodeError>)
    ensures v.BytesValue? ==> (r.Ok? <==> Utf8.Decode(v.b).Some?)
    ensures v.BytesValue? && r.Ok? ==> Utf8.Encode(r.value) == v.b
    ensures r.Err? ==> r.error == UnicodeDecodeError
    ensures !v.BytesValue? ==> r == Ok(Str(v))
  {
    match v
    case BytesValue(b) =>
      (match Utf8.Decode(b)
       case Some(s) => Utf8.EncodeDecode(b); Ok(s)
       case None => Err(UnicodeDecodeError))
    case _ => Ok(Str(v))
  }

  /** Text stored with the default encoder loads back unchanged. */
  lemma DefaultRoundTrip(s: string)
    ensures DefaultLoads(BytesValue(DefaultDumps(Text(s)))) == Ok(s)
  {
    Utf8.DecodeEncode(s);
  }

  /** An integer is stored as its decimal notation. */
  lemma DefaultDumpsInt(i: int)
    ensures DefaultDumps(Int(i)) == IntToDecimal(i)
  {
    Utf8.EncodeAscii(IntText(i));
  }

  /** `Bytes.dumps` (and `Bytes.loads`, the same function): byte strings pass through,
      text is encoded, and a value with no `encode` method raises. */
  function BytesDumps(v: Value): (r: Result<ByteString, EncodeError>)
    ensures r.Ok? <==> v.BytesValue? || v.Text?
    ensures v.BytesValue? ==> r == Ok(v.b)
    ensures v.Text? ==> Utf8.Decode(r.value) == Some(v.s)
    ensures r.Err? ==> r.error == AttributeError
  {
    match v
    case BytesValue(b) => Ok(b)
    case Text(s) => Utf8.DecodeEncode(s); Ok(Utf8.Encode(s))
    case _ => Err(AttributeError)
  }

  function BytesLoads(v: Value): Result<ByteString, EncodeError> {
    BytesDumps(v)
  }

  /** Loading what `Bytes` stored gives back the stored bytes. */
  lemma BytesLoadsDumps(v: Value)
    requires BytesDumps(v).Ok?
    ensures BytesLoads(BytesValue(BytesDumps(v).value)) == BytesDumps(v)
  {
  }

  /** `NoEncoder.dumps`: the identity. */
  function NoEncoderDumps(v: Value): Value {
    v
  }

  /** `NoEncoder.loads`: the identity. */
  function NoEncoderLoads(v: Value): Value {
    v
  }

  /** The pass-through encoder stores values untouched: each direction undoes the other. */
  lemma NoEncoderRoundTrip(v: Value)
    ensures NoEncoderLoads(NoEncoderDumps(v)) == v && NoEncoderDumps(NoEncoderLoads(v)) == v
    ensures NoEncoderDumps(v) == v
  {
  }

  /** What `pickle.loads` does with a byte string: return a value, raise
      `UnpicklingError`, or raise some other exception (`EOFError` for empty or
      truncated input, for one), named by its class. */
  datatype Unpickled = Unpickled(value: Value) | UnpicklingError | OtherError(name: string)

  /** `PythonPickle.loads`. The unpickler is a parameter. Only `UnpicklingError` is
      caught and turned into `None`; any other exception it raises propagates. */
  function PickleLoads(v: Value, unpickle: ByteString -> Unpickled): (r: Result<Value, EncodeError>)
    ensures v == NoneValue ==> r == Ok(NoneValue)
    ensures !v.BytesValue? ==> r == Ok(v)
    ensures v.BytesValue? ==> (r.Err? <==> unpickle(v.b).OtherError?)
    ensures v.BytesValue? && unpickle(v.b).UnpicklingError? ==> r == Ok(NoneValue)
    ensures v.BytesValue? && unpickle(v.b).Unpickled? ==> r == Ok(unpickle(v.b).value)
    ensures r.Err? ==> v.BytesValue? && r.error.Raised? && unpickle(v.b) == OtherError(r.error.name)
  {
    match v
    case NoneValue => Ok(v)
    case BytesValue(b) =>
      (match unpickle(b)
       case Unpickled(x) => Ok(x)
       case UnpicklingError => Ok(NoneValue)
       case OtherError(name) => Err(Raised(name)))
    case _ => Ok(v)
  }

  /** `PythonPickle.dumps`. The pickler is a parameter: `pickle(x)` is `None` when it
      raises, an error the encoder logs and turns into `None`. */
  function PickleDumps(v: Value, pickle: Value -> Option<ByteString>): (r: Value)
    ensures v == NoneValue ==> r == NoneValue
    ensures r == NoneValue || r.BytesValue?
  {
    if v == NoneValue then NoneValue
    else match pickle(v)
      case Some(b) => BytesValue(b)
      case None => NoneValue
  }

  /** A value the unpickler reads back as itself survives storing and loading; `None`,
      and a value the pickler cannot handle, come back as `None`. */
  lemma PickleRoundTrip(v: Value, pickle: Value -> Option<ByteString>, unpickle: ByteString -> Unpickled)
    requires v != NoneValue && pickle(v).Some? ==> unpickle(pickle(v).value) == Unpickled(v)
    ensures PickleLoads(PickleDumps(v, pickle), unpickle) ==
            Ok(if v == NoneValue || pickle(v).None? then NoneValue else v)
  {
  }
}
