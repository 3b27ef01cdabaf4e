/**
 * The key list a cascading delete acts on (factoryDeleteKeys in redis.go):
 * every argument is turned into a key by getKey, arguments it refuses are
 * skipped, and the expansions of the others are concatenated in order.
 */
module Cascade {
  import opened CacheTypes
  import opened Relevance

  /** The expansion of one argument: nothing when getKey refuses it. */
  function ArgumentKeys(v: View, getKey: Value -> Option<Key>, item: Value, fuel: nat): (r: seq<Key>)
    ensures getKey(item).None? ==> r == []
    ensures forall j :: j in r ==> Emits(v, j)
  {
    match getKey(item)
    case None => []
    case Some(k) => Resolve(v, k, fuel)
  }

  /** The flat list of keys a Del or Unlink of `items` removes. */
  function CascadeKeys(v: View, getKey: Value -> Option<Key>, items: seq<Value>, fuel: nat): (r: seq<Key>)
    ensures forall j :: j in r ==> Emits(v, j)
  {
    if items == [] then []
    else CascadeKeys(v, getKey, items[..|items| - 1], fuel) + ArgumentKeys(v, getKey, items[|items| - 1], fuel)
  }

  /** The arguments are handled independently and in order. */
  lemma {:induction false} CascadeKeysAppend(v: View, getKey: Value -> Option<Key>, a: seq<Value>, b: seq<Value>, fuel: nat)
    ensures CascadeKeys(v, getKey, a + b, fuel) == CascadeKeys(v, getKey, a, fuel) + CascadeKeys(v, getKey, b, fuel)
    decreases |b|
  {
    if b == [] {
      assert a + b == a;
    } else {
      var b' := b[..|b| - 1];
      assert (a + b)[..|a + b| - 1] == a + b';
      assert (a + b)[|a + b| - 1] == b[|b| - 1];
      CascadeKeysAppend(v, getKey, a, b', fuel);
    }
  }

  /** An argument getKey refuses is skipped without affecting the others. */
  lemma CascadeSkipsInvalid(v: View, getKey: Value -> Option<Key>, a: seq<Value>, x: Value, b: seq<Value>, fuel: nat)
    requires getKey(x).None?
    ensures CascadeKeys(v, getKey, a + [x] + b, fuel) == CascadeKeys(v, getKey, a + b, fuel)
  {
    assert [x][..0] == [];
    assert CascadeKeys(v, getKey, [x], fuel) == [];
    CascadeKeysAppend(v, getKey, a, [x], fuel);
    assert CascadeKeys(v, getKey, a + [x], fuel) == CascadeKeys(v, getKey, a, fuel);
    CascadeKeysAppend(v, getKey, a + [x], b, fuel);
    CascadeKeysAppend(v, getKey, a, b, fuel);
  }

  /** A key is deleted exactly when it is in the expansion of some accepted argument. */
  lemma {:induction false} CascadeMembers(v: View, getKey: Value -> Option<Key>, items: seq<Value>, fuel: nat)
    ensures forall j :: j in CascadeKeys(v, getKey, items, fuel) <==>
      exists i :: 0 <= i < |items| && getKey(items[i]).Some? && j in Resolve(v, getKey(items[i]).value, fuel)
  {
    if items != [] {
      var n := |items| - 1;
      var front := items[..n];
      CascadeMembers(v, getKey, front, fuel);
      forall j
        ensures j in CascadeKeys(v, getKey, items, fuel) <==>
          exists i :: 0 <= i < |items| && getKey(items[i]).Some? && j in Resolve(v, getKey(items[i]).value, fuel)
      {
        if exists i :: 0 <= i < |items| && getKey(items[i]).Some? && j in Resolve(v, getKey(items[i]).value, fuel) {
          var i :| 0 <= i < |items| && getKey(items[i]).Some? && j in Resolve(v, getKey(items[i]).value, fuel);
          if i < n {
            assert front[i] == items[i];
          }
        }
        if exists i :: 0 <= i < n && getKey(front[i]).Some? && j in Resolve(v, getKey(front[i]).value, fuel) {
          var i :| 0 <= i < n && getKey(front[i]).Some? && j in Resolve(v, getKey(front[i]).value, fuel);
          assert items[i] == front[i];
        }
      }
    }
  }

  /**
   * The cascade has nothing to delete exactly when every accepted argument
   * resolves to nothing (it is absent, or a pattern with no stored match).
   */
  lemma CascadeEmpty(v: View, getKey: Value -> Option<Key>, items: seq<Value>, fuel: nat)
    ensures CascadeKeys(v, getKey, items, fuel) == [] <==>
      forall i :: 0 <= i < |items| && getKey(items[i]).Some? ==> Resolve(v, getKey(items[i]).value, fuel) == []
  {
    CascadeMembers(v, getKey, items, fuel);
    var r := CascadeKeys(v, getKey, items, fuel);
    if r != [] {
      assert r[0] in r;
    }
    forall i | 0 <= i < |items| && getKey(items[i]).Some? && Resolve(v, getKey(items[i]).value, fuel) != []
      ensures r != []
    {
      var rs := Resolve(v, getKey(items[i]).value, fuel);
      assert rs[0] in rs;
      assert rs[0] in r;
    }
  }
}
