/** JSON-like values, the payloads and projections the engine works with. */
module Json {

  /** A decoded JSON value. Floating-point numbers are not modelled. */
  datatype Value =
    | Null
    | Bool(b: bool)
    | Int(i: int)
    | Str(s: string)
    | Arr(items: seq<Value>)
    | Obj(fields: map<string, Value>)

  /** The empty object `{}`, the default used by `dict.get(key, {})`. */
  const EmptyObj: Value := Obj(map[])

  /** `d.get(key, default)` on a Python dict. */
  function GetOr(d: map<string, Value>, key: string, default: Value): (r: Value)
    ensures key in d ==> r == d[key]
    ensures key !in d ==> r == default
  {
    if key in d then d[key] else default
  }

  /** The keys written in a dict display, in order. */
  function Keys(pairs: seq<(string, Value)>): (ks: set<string>)
  {
    set i | 0 <= i < |pairs| :: pairs[i].0
  }

  /** A Python dict display `{k0: v0, k1: v1, ...}`: entries are inserted left
      to right, so when a key is written twice the later entry wins. */
  function DictLiteral(pairs: seq<(string, Value)>): (d: map<string, Value>)
    ensures d.Keys == Keys(pairs)
    ensures forall i :: 0 <= i < |pairs| ==> pairs[i].0 in d
    ensures forall i :: 0 <= i < |pairs| && LastWithKey(pairs, i) ==> d[pairs[i].0] == pairs[i].1
  {
    if |pairs| == 0 then map[]
    else
      var init := pairs[..|pairs| - 1];
      var last := pairs[|pairs| - 1];
      KeysSnoc(pairs);
      var d := DictLiteral(init)[last.0 := last.1];
      forall i | 0 <= i < |pairs| ensures pairs[i].0 in d {
        if i < |pairs| - 1 {
          assert pairs[i] == init[i];
        }
      }
      forall i | 0 <= i < |pairs| && LastWithKey(pairs, i)
        ensures d[pairs[i].0] == pairs[i].1
      {
        if i < |pairs| - 1 {
          assert pairs[i] == init[i];
          assert LastWithKey(init, i);
        }
      }
      d
  }

  lemma KeysSnoc(pairs: seq<(string, Value)>)
    requires |pairs| > 0
    ensures Keys(pairs) == Keys(pairs[..|pairs| - 1]) + {pairs[|pairs| - 1].0}
  {
    var init := pairs[..|pairs| - 1];
    forall k | k in Keys(pairs) ensures k in Keys(init) + {pairs[|pairs| - 1].0} {
      var i :| 0 <= i < |pairs| && pairs[i].0 == k;
      if i < |pairs| - 1 { assert init[i] == pairs[i]; }
    }
    forall k | k in Keys(init) ensures k in Keys(pairs) {
      var i :| 0 <= i < |init| && init[i].0 == k;
      assert pairs[i] == init[i];
    }
  }

  /** Entry `i` of a dict display is the last one written with its key. */
  predicate LastWithKey(pairs: seq<(string, Value)>, i: nat)
    requires i < |pairs|
  {
    forall j :: i < j < |pairs| ==> pairs[j].0 != pairs[i].0
  }
}
