/** Text comparison, optional values and hash-table traversal, as the attribute manager uses them. */
module Common {

  datatype Option<+T> = None | Some(value: T)

  function OrElse<T>(x: Option<T>, y: Option<T>): (r: Option<T>)
    ensures x.Some? ==> r == x
    ensures x.None? ==> r == y
  {
    if x.Some? then x else y
  }

  function Lookup<K, V>(m: map<K, V>, k: K): Option<V> {
    if k in m then Some(m[k]) else None
  }

  function LowerChar(c: char): char {
    if 'A' <= c <= 'Z' then (c as int + 32) as char else c
  }

  /** The key under which a case-insensitive table files a string. */
  function Fold(s: string): string {
    seq(|s|, i requires 0 <= i < |s| => LowerChar(s[i]))
  }

  lemma FoldIdempotent(s: string)
    ensures Fold(Fold(s)) == Fold(s)
  {
  }

  /** Case-insensitive comparison of possibly absent strings; an absent string equals only an absent one. */
  predicate SameText(x: Option<string>, y: Option<string>) {
    match (x, y)
    case (None, None) => true
    case (Some(s), Some(t)) => Fold(s) == Fold(t)
    case _ => false
  }

  /** A traversal of a hash table visits every key exactly once. */
  ghost predicate Enumerates(order: seq<string>, keys: set<string>) {
    && (forall k :: k in order <==> k in keys)
    && (forall i, j :: 0 <= i < j < |order| ==> order[i] != order[j])
  }

  /** What the model leaves to the outside world within one step: the order in which hash tables
      are traversed, which CIB calls the connection refuses to send, and whether the local node is
      an active cluster member (without which no election can be called). */
  datatype Env = Env(order: set<string> -> seq<string>, refuses: int -> bool, active: bool)

  ghost predicate ValidEnv(env: Env) {
    forall keys :: Enumerates(env.order(keys), keys)
  }

  ghost function AnyOrder(keys: set<string>): (order: seq<string>)
    ensures Enumerates(order, keys)
  {
    if keys == {} then [] else
      var k :| k in keys;
      [k] + AnyOrder(keys - {k})
  }

  /** The environment assumption can be met. */
  lemma EnvExists(refuses: int -> bool, active: bool) returns (env: Env)
    ensures ValidEnv(env) && env.refuses == refuses && env.active == active
  {
    env := Env(keys => AnyOrder(keys), refuses, active);
  }

  lemma EnumeratesNone(order: seq<string>)
    requires Enumerates(order, {})
    ensures order == []
  {
    assert (order + [""])[0] in order || order == [];
  }
}
