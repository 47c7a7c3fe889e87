/** Key naming of the Redis backend: `basekey` and `tempkey`. */
module Keys {
  import opened Wrappers
  import opened Bytes
  import opened Models

  const SEP: char := ':'

  /** `'{sep}'.join(parts)`. */
  function Join(parts: seq<string>): string {
    if parts == [] then ""
    else if |parts| == 1 then parts[0]
    else parts[0] + [SEP] + Join(parts[1..])
  }

  /** `s.split(':')`: the pieces between separators, always at least one. */
  function Split(s: string): (parts: seq<string>)
    ensures |parts| >= 1
    ensures forall i :: 0 <= i < |parts| ==> SEP !in parts[i]
    decreases |s|
  {
    if SEP !in s then [s]
    else
      var i := IndexOf(s, SEP);
      [s[..i]] + Split(s[i + 1..])
  }

  /** The position of the first `c` in `s`. */
  function IndexOf(s: string, c: char): (i: nat)
    requires c in s
    ensures i < |s| && s[i] == c && c !in s[..i]
  {
    if s[0] == c then 0 else 1 + IndexOf(s[1..], c)
  }

  /** The arguments that are not `None`, in order. */
  function Present(args: seq<Option<string>>): (r: seq<string>)
    ensures |r| <= |args|
    ensures forall x :: x in r <==> Some(x) in args
  {
    if args == [] then []
    else (if args[0].Some? then [args[0].value] else []) + Present(args[1..])
  }

  /** `basekey(meta, *args)`: namespace and model key, then `:` and the `:`-joined
      arguments that are not `None`, when that join is not empty. */
  function Basekey(ns: string, meta: Meta, args: seq<Option<string>>): (k: string)
    ensures |ns + meta.modelkey| <= |k| && k[..|ns + meta.modelkey|] == ns + meta.modelkey
    ensures Join(Present(args)) == "" <==> k == ns + meta.modelkey
  {
    var key := ns + meta.modelkey;
    var postfix := Join(Present(args));
    if postfix != "" then key + [SEP] + postfix else key
  }

  /** The key of a model itself, `basekey(meta)`. */
  function ModelKey(ns: string, meta: Meta): (k: string)
    ensures k == ns + meta.modelkey
  {
    Basekey(ns, meta, [])
  }

  /** `gen_unique_id()`. Its generator is not part of this model; the model assumes only
      that ids never repeat, and stands for the `n`-th draw by the digits of `n`. */
  function UniqueId(n: nat): string {
    NatText(n)
  }

  /** `tempkey(meta)`: a key under the `tmp` subpart of the model key. */
  function Tempkey(ns: string, meta: Meta, n: nat): (k: string)
    ensures k == ModelKey(ns, meta) + ":tmp:" + UniqueId(n)
  {
    var k := Basekey(ns, meta, [Some("tmp"), Some(UniqueId(n))]);
    assert Present([Some("tmp"), Some(UniqueId(n))]) == ["tmp", UniqueId(n)];
    assert Join(["tmp", UniqueId(n)]) == "tmp" + [SEP] + UniqueId(n);
    k
  }

  // ---------------------------------------------------------------------------------

  lemma {:induction false} SplitJoin(parts: seq<string>)
    requires |parts| >= 1
    requires forall i :: 0 <= i < |parts| ==> SEP !in parts[i]
    ensures Split(Join(parts)) == parts
  {
    if |parts| > 1 {
      var s := Join(parts);
      assert s == parts[0] + [SEP] + Join(parts[1..]);
      assert SEP in s by { assert s[|parts[0]|] == SEP; }
      var i := IndexOf(s, SEP);
      assert i == |parts[0]|;
      assert s[..i] == parts[0];
      assert s[i + 1..] == Join(parts[1..]);
      SplitJoin(parts[1..]);
      assert [parts[0]] + parts[1..] == parts;
    }
  }

  /** A key built from colon-free arguments, at least one of them non-empty, splits
      back into those arguments after the model key. */
  lemma BasekeyArgs(ns: string, meta: Meta, args: seq<string>)
    requires forall i :: 0 <= i < |args| ==> SEP !in args[i]
    requires exists i :: 0 <= i < |args| && args[i] != ""
    ensures var k := Basekey(ns, meta, seq(|args|, i requires 0 <= i < |args| => Some(args[i])));
            |k| > |ns + meta.modelkey| && k[|ns + meta.modelkey|] == SEP &&
            Split(k[|ns + meta.modelkey| + 1..]) == args
  {
    var opts := seq(|args|, i requires 0 <= i < |args| => Some(args[i]));
    PresentAll(args, opts);
    JoinNonEmpty(args);
    SplitJoin(args);
    var k := Basekey(ns, meta, opts);
    assert k == ns + meta.modelkey + [SEP] + Join(args);
    assert k[|ns + meta.modelkey| + 1..] == Join(args);
  }

  lemma {:induction false} PresentAll(args: seq<string>, opts: seq<Option<string>>)
    requires |opts| == |args| && forall i :: 0 <= i < |args| ==> opts[i] == Some(args[i])
    ensures Present(opts) == args
  {
    if args != [] {
      PresentAll(args[1..], opts[1..]);
    }
  }

  lemma {:induction false} JoinNonEmpty(parts: seq<string>)
    requires exists i :: 0 <= i < |parts| && parts[i] != ""
    ensures Join(parts) != ""
  {
    if |parts| > 1 && parts[0] == "" {
      var i :| 0 <= i < |parts| && parts[i] != "";
      assert parts[1..][i - 1] != "";
      JoinNonEmpty(parts[1..]);
    }
  }

  lemma NatTextInjective(a: nat, b: nat)
    requires NatText(a) == NatText(b)
    ensures a == b
  {
    DigitsValueOfNatText(a);
    DigitsValueOfNatText(b);
  }

  /** Temporary keys lie under the `tmp` subpart, and distinct draws of the id
      give distinct keys. */
  lemma TempkeysDistinct(ns: string, meta: Meta, a: nat, b: nat)
    requires a != b
    ensures Tempkey(ns, meta, a) != Tempkey(ns, meta, b)
  {
    var prefix := ModelKey(ns, meta) + ":tmp:";
    if Tempkey(ns, meta, a) == Tempkey(ns, meta, b) {
      assert Tempkey(ns, meta, a)[|prefix|..] == UniqueId(a);
      assert Tempkey(ns, meta, b)[|prefix|..] == UniqueId(b);
      NatTextInjective(a, b);
    }
  }
}
