/**
 * A decoded JSON value, as `json.load` hands it to the program: objects are
 * Python dicts, kept here as their members in insertion order. Text
 * encoding and decoding are not modelled; only the values are.
 */
module Json {
  import opened Wrappers

  datatype Json =
    | JNull
    | JBool(b: bool)
    | JNum(n: real)
    | JStr(s: string)
    | JArr(items: seq<Json>)
    | JObj(members: seq<(string, Json)>)

  /** The keys of an object, in insertion order. */
  function Keys(members: seq<(string, Json)>): (keys: seq<string>)
    ensures |keys| == |members|
    ensures forall k :: 0 <= k < |members| ==> keys[k] == members[k].0
  {
    if members == [] then [] else [members[0].0] + Keys(members[1..])
  }

  /** `key in d` for a dict `d`. */
  predicate HasKey(members: seq<(string, Json)>, key: string) {
    exists k :: 0 <= k < |members| && members[k].0 == key
  }

  lemma HasKeyCons(members: seq<(string, Json)>, key: string)
    requires members != []
    ensures HasKey(members, key) <==> members[0].0 == key || HasKey(members[1..], key)
  {
    if HasKey(members, key) && members[0].0 != key {
      var k :| 0 <= k < |members| && members[k].0 == key;
      assert members[1..][k - 1].0 == key;
    }
    if HasKey(members[1..], key) {
      var k :| 0 <= k < |members[1..]| && members[1..][k].0 == key;
      assert members[k + 1].0 == key;
    }
  }

  /** `d.get(key)`: the value stored under `key`, if any (the first, should a key repeat). */
  function Get(members: seq<(string, Json)>, key: string): Option<Json> {
    if members == [] then None
    else if members[0].0 == key then Some(members[0].1)
    else Get(members[1..], key)
  }

  /** `get` finds a value exactly for the keys the dict holds, and the value is stored under that key. */
  lemma {:induction false} GetFinds(members: seq<(string, Json)>, key: string)
    ensures Get(members, key).Some? <==> HasKey(members, key)
    ensures Get(members, key).Some? ==> exists k :: 0 <= k < |members| && members[k] == (key, Get(members, key).value)
  {
    if members != [] {
      HasKeyCons(members, key);
      if members[0].0 != key {
        GetFinds(members[1..], key);
        if Get(members, key).Some? {
          var k :| 0 <= k < |members[1..]| && members[1..][k] == (key, Get(members, key).value);
          assert members[k + 1] == (key, Get(members, key).value);
        }
      }
    }
  }

  /** `d.get(key, default)`. */
  function GetOr(members: seq<(string, Json)>, key: string, default: Json): Json {
    Get(members, key).GetOr(default)
  }

  /** `d[key] = v`: an existing key keeps its position, a new one goes last. */
  function Set(members: seq<(string, Json)>, key: string, v: Json): seq<(string, Json)> {
    if members == [] then [(key, v)]
    else if members[0].0 == key then [(key, v)] + members[1..]
    else [members[0]] + Set(members[1..], key, v)
  }

  /**
   * After `d[key] = v`, `d.get(key)` is `v`, every other key reads as
   * before, and the key order is unchanged unless `key` was new, in which
   * case it comes last.
   */
  lemma {:induction false} SetEffect(members: seq<(string, Json)>, key: string, v: Json, other: string)
    ensures Get(Set(members, key, v), key) == Some(v)
    ensures other != key ==> Get(Set(members, key, v), other) == Get(members, other)
    ensures Keys(Set(members, key, v)) == if HasKey(members, key) then Keys(members) else Keys(members) + [key]
  {
    if members != [] {
      HasKeyCons(members, key);
      if members[0].0 != key {
        SetEffect(members[1..], key, v, other);
        var r := [members[0]] + Set(members[1..], key, v);
        assert r[0] == members[0] && r[1..] == Set(members[1..], key, v);
      }
    }
  }

  /** Assigning a key the dict does not hold appends it. */
  lemma {:induction false} SetNewKey(members: seq<(string, Json)>, key: string, v: Json)
    requires !HasKey(members, key)
    ensures Set(members, key, v) == members + [(key, v)]
  {
    if members != [] {
      HasKeyCons(members, key);
      SetNewKey(members[1..], key, v);
      assert [members[0]] + (members[1..] + [(key, v)]) == members + [(key, v)];
    }
  }

  /** Python truthiness: `null`, `false`, `0`, `""`, `[]` and `{}` are false. */
  predicate Truthy(j: Json) {
    match j
    case JNull => false
    case JBool(b) => b
    case JNum(n) => n != 0.0
    case JStr(s) => s != ""
    case JArr(items) => items != []
    case JObj(members) => members != []
  }

  /**
   * What `for x in j` yields: the items of a list, the keys of a dict, the
   * characters of a string; numbers, booleans and `null` are not iterable.
   */
  function Iter(j: Json): (xs: Option<seq<Json>>)
    ensures j.JArr? ==> xs == Some(j.items)
    ensures xs.None? <==> j.JNull? || j.JBool? || j.JNum?
    ensures j.JObj? ==>
      xs.Some? && |xs.value| == |j.members| && forall k :: 0 <= k < |j.members| ==> xs.value[k] == JStr(j.members[k].0)
    ensures j.JStr? ==>
      xs.Some? && |xs.value| == |j.s| && forall k :: 0 <= k < |j.s| ==> xs.value[k] == JStr([j.s[k]])
  {
    match j
    case JArr(items) => Some(items)
    case JObj(members) =>
      var keys := Keys(members);
      Some(seq(|keys|, k requires 0 <= k < |keys| => JStr(keys[k])))
    case JStr(s) => Some(seq(|s|, k requires 0 <= k < |s| => JStr([s[k]])))
    case _ => None
  }
}
