/** Flat key/value lists, as the Redis client helpers `flat_mapping` and
    `pairs_to_dict` exchange them with the Lua scripts, and `dict(zip(keys, values))`. */
module Mappings {
  /** `dict(zip(keys, values))`: pairs up to the shorter list. */
  function ZipMap(keys: seq<string>, values: seq<string>): (m: map<string, string>)
    ensures forall x :: x in m <==> x in keys[..Min(|keys|, |values|)]
  {
    var n := Min(|keys|, |values|);
    Assoc(keys[..n], values[..n])
  }

  function Min(a: nat, b: nat): nat {
    if a <= b then a else b
  }

  /** A dictionary built pair by pair, so that a repeated key keeps the value of its last
      occurrence. */
  function Assoc(keys: seq<string>, values: seq<string>): (m: map<string, string>)
    requires |keys| == |values|
    ensures forall x :: x in m <==> x in keys
  {
    if keys == [] then map[]
    else
      var n := |keys| - 1;
      assert keys == keys[..n] + [keys[n]];
      Assoc(keys[..n], values[..n])[keys[n] := values[n]]
  }

  /** The value of a key is the one paired with its last occurrence. */
  lemma {:induction false} AssocLast(keys: seq<string>, values: seq<string>, i: nat)
    requires |keys| == |values| && i < |keys|
    requires forall j :: i < j < |keys| ==> keys[j] != keys[i]
    ensures Assoc(keys, values)[keys[i]] == values[i]
  {
    var n := |keys| - 1;
    if i < n {
      assert keys[..n][i] == keys[i];
      AssocLast(keys[..n], values[..n], i);
    }
  }

  /** `dict(zip(keys, values))` maps each key of a duplicate-free list to its value. */
  lemma ZipMapLookup(keys: seq<string>, values: seq<string>, i: nat)
    requires i < |keys| && i < |values|
    requires forall a, b :: 0 <= a < b < |keys| ==> keys[a] != keys[b]
    ensures keys[i] in ZipMap(keys, values) && ZipMap(keys, values)[keys[i]] == values[i]
  {
    var n := Min(|keys|, |values|);
    assert keys[..n][i] == keys[i];
    AssocLast(keys[..n], values[..n], i);
  }

  /** The keys of a list of pairs. */
  function Firsts(pairs: seq<(string, string)>): (r: seq<string>)
    ensures |r| == |pairs| && forall i :: 0 <= i < |pairs| ==> r[i] == pairs[i].0
  {
    if pairs == [] then [] else [pairs[0].0] + Firsts(pairs[1..])
  }

  /** The values of a list of pairs. */
  function Seconds(pairs: seq<(string, string)>): (r: seq<string>)
    ensures |r| == |pairs| && forall i :: 0 <= i < |pairs| ==> r[i] == pairs[i].1
  {
    if pairs == [] then [] else [pairs[0].1] + Seconds(pairs[1..])
  }

  /** `flat_mapping`: the pairs of a mapping laid out as `k1, v1, k2, v2, ...`. */
  function FlatMapping(pairs: seq<(string, string)>): (flat: seq<string>)
    ensures |flat| == 2 * |pairs|
    ensures forall i :: 0 <= i < |pairs| ==> flat[2 * i] == pairs[i].0 && flat[2 * i + 1] == pairs[i].1
  {
    if pairs == [] then [] else [pairs[0].0, pairs[0].1] + FlatMapping(pairs[1..])
  }

  /** The elements at even positions that have a successor, and those successors. */
  function EvenKeys(flat: seq<string>): (r: seq<string>)
    ensures |r| == |flat| / 2 && forall i :: 0 <= i < |r| ==> r[i] == flat[2 * i]
  {
    if |flat| < 2 then [] else [flat[0]] + EvenKeys(flat[2..])
  }

  function OddValues(flat: seq<string>): (r: seq<string>)
    ensures |r| == |flat| / 2 && forall i :: 0 <= i < |r| ==> r[i] == flat[2 * i + 1]
  {
    if |flat| < 2 then [] else [flat[1]] + OddValues(flat[2..])
  }

  /** `pairs_to_dict`: a flat reply read two elements at a time; a trailing odd element
      is dropped. */
  function PairsToDict(flat: seq<string>): (m: map<string, string>)
    ensures forall x :: x in m <==> x in EvenKeys(flat)
  {
    ZipMap(EvenKeys(flat), OddValues(flat))
  }

  /** Flattening a mapping and reading it back gives the mapping of its pairs. */
  lemma PairsFlatMapping(pairs: seq<(string, string)>)
    ensures PairsToDict(FlatMapping(pairs)) == ZipMap(Firsts(pairs), Seconds(pairs))
  {
    var flat := FlatMapping(pairs);
    assert EvenKeys(flat) == Firsts(pairs);
    assert OddValues(flat) == Seconds(pairs);
  }

  /** With distinct keys, every pair survives the round trip through the flat list. */
  lemma PairsFlatMappingLookup(pairs: seq<(string, string)>, i: nat)
    requires forall a, b :: 0 <= a < b < |pairs| ==> pairs[a].0 != pairs[b].0
    requires i < |pairs|
    ensures pairs[i].0 in PairsToDict(FlatMapping(pairs)) && PairsToDict(FlatMapping(pairs))[pairs[i].0] == pairs[i].1
  {
    PairsFlatMapping(pairs);
    ZipMapLookup(Firsts(pairs), Seconds(pairs), i);
  }
}
