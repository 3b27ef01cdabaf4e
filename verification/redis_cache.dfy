/**
 * RedisCache from redis.go: the cache client as a class whose state is the
 * store it is connected to and the log of the commands it has sent that
 * change that store. Resolution, the cascading deletes, Set, Get and MGet
 * are methods proved against the functions of Relevance, Cascade and
 * WritePath.
 *
 * Calls into the client library become reads and updates of `store`; the
 * replies of SCAN are the `scan` argument; whether the store answers the
 * final command of an operation with an error is the `fails` argument.
 */
module RedisCacheModel {
  import opened CacheTypes
  import opened Relevance
  import opened Cascade
  import opened WritePath

  /** A command that changes the store, as sent over the connection. */
  datatype Command = SetCmd(write: Write) | DelCmd(keys: seq<Key>) | UnlinkCmd(keys: seq<Key>)

  class RedisCache {
    const ext: Externals
    var store: map<Key, Stored>
    var commands: seq<Command>

    constructor (ext: Externals, store: map<Key, Stored>)
      ensures this.ext == ext && this.store == store && commands == []
    {
      this.ext := ext;
      this.store := store;
      commands := [];
    }

    /** What a resolution started now sees. */
    function Snapshot(scan: Key -> seq<ScanReply>): View
      reads this
    {
      View(store, ext.decodeMeta, scan)
    }

    /**
     * factoryRelevantKeys. `depth` bounds the recursion, which the source
     * leaves unbounded: with depth 0 nothing is read.
     */
    method RelevantKeys(key: Key, scan: Key -> seq<ScanReply>, depth: nat) returns (keys: seq<Key>)
      ensures keys == Resolve(Snapshot(scan), key, depth)
      ensures depth > 0 && !HasAsterisk(key) && key !in store ==> keys == []
      ensures depth > 0 && !HasAsterisk(key) && key in store ==> |keys| > 0 && keys[0] == key
      ensures depth > 0 && !HasAsterisk(key) && key in store && ext.decodeMeta(store[key].value).relevant.None? ==>
        keys == [key]
      decreases depth, 0
    {
      if depth == 0 {
        return [];
      }
      if HasAsterisk(key) {
        keys := RelevantKeysWithAsterisk(key, scan, depth - 1);
        return;
      }
      keys := [];
      if key !in store {
        return;
      }
      keys := keys + [key];
      var meta := ext.decodeMeta(store[key].value).relevant;
      if meta.None? {
        return;
      }
      var relevant := meta.value;
      for i := 0 to |relevant|
        invariant keys == [key] + ResolveAll(Snapshot(scan), relevant[..i], depth - 1)
      {
        assert relevant[..i + 1][..i] == relevant[..i];
        var rKeys := RelevantKeys(relevant[i], scan, depth - 1);
        keys := keys + rKeys;
      }
      assert relevant[..|relevant|] == relevant;
    }

    /**
     * factoryRelevantKeysWithAsterisk: the pattern itself is never read; the
     * scan is repeated until a reply carries cursor 0, each scanned key is
     * expanded in order, and a failed round trip returns what was gathered.
     */
    method RelevantKeysWithAsterisk(pattern: Key, scan: Key -> seq<ScanReply>, depth: nat) returns (keys: seq<Key>)
      ensures keys == ResolveAll(Snapshot(scan), ScannedKeys(scan(pattern)), depth)
      decreases depth, 1
    {
      keys := [];
      var replies := scan(pattern);
      var round := 0;
      while round < |replies|
        invariant 0 <= round <= |replies|
        invariant forall m :: 0 <= m < round ==> Continuing(replies[m])
        invariant keys == ResolveAll(Snapshot(scan), PageKeys(replies[..round]), depth)
      {
        if replies[round].ScanFailed? {
          ScanStops(replies, round);
          return;
        }
        var page := replies[round].keys;
        ghost var gathered := PageKeys(replies[..round]);
        assert gathered + page[..0] == gathered;
        for j := 0 to |page|
          invariant keys == ResolveAll(Snapshot(scan), gathered + page[..j], depth)
        {
          ResolveAllSnoc(Snapshot(scan), gathered, page, j, depth);
          var ks := RelevantKeys(page[j], scan, depth);
          keys := keys + ks;
        }
        PageKeysSnoc(replies, round);
        if replies[round].cursor == 0 {
          ScanStops(replies, round);
          return;
        }
        round := round + 1;
      }
      ScannedKeysAfter(replies, round);
      assert replies[..round] == replies && replies[round..] == [];
      assert ScannedKeys(replies[round..]) == [];
      assert ScannedKeys(replies) == PageKeys(replies[..round]);
      assert keys == ResolveAll(Snapshot(scan), ScannedKeys(replies), depth);
    }

    /**
     * factoryDeleteKeys: arguments getKey refuses are skipped, the others
     * are expanded and concatenated in order.
     */
    method DeleteKeys(items: seq<Value>, scan: Key -> seq<ScanReply>, depth: nat) returns (keys: seq<Key>)
      ensures keys == CascadeKeys(Snapshot(scan), ext.getKey, items, depth)
    {
      keys := [];
      for i := 0 to |items|
        invariant keys == CascadeKeys(Snapshot(scan), ext.getKey, items[..i], depth)
      {
        assert items[..i + 1][..i] == items[..i];
        var key := ext.getKey(items[i]);
        if key.None? {
          continue;
        }
        var ks := RelevantKeys(key.value, scan, depth);
        keys := keys + ks;
      }
      assert items[..|items|] == items;
    }

    /**
     * Del: with nothing to delete it succeeds without sending a command;
     * otherwise it sends one DEL of the whole list, after which every listed
     * key is gone and every other key is as it was.
     */
    method Del(items: seq<Value>, scan: Key -> seq<ScanReply>, depth: nat, fails: bool) returns (r: Outcome)
      modifies this
      ensures var keys := CascadeKeys(old(Snapshot(scan)), ext.getKey, items, depth);
        if keys == [] then r == Pass && store == old(store) && commands == old(commands)
        else
          && commands == old(commands) + [DelCmd(keys)]
          && (fails ==> r == Fail(StoreError) && store == old(store))
          && (!fails ==> r == Pass && store == old(store) - (set k | k in keys))
    {
      var keys := DeleteKeys(items, scan, depth);
      if keys == [] {
        return Pass;
      }
      commands := commands + [DelCmd(keys)];
      if fails {
        return Fail(StoreError);
      }
      store := store - (set k | k in keys);
      r := Pass;
    }

    /**
     * Unlink: the same as Del, with the non-blocking UNLINK as the one bulk
     * command; on the keyspace the two have the same effect.
     */
    method Unlink(items: seq<Value>, scan: Key -> seq<ScanReply>, depth: nat, fails: bool) returns (r: Outcome)
      modifies this
      ensures var keys := CascadeKeys(old(Snapshot(scan)), ext.getKey, items, depth);
        if keys == [] then r == Pass && store == old(store) && commands == old(commands)
        else
          && commands == old(commands) + [UnlinkCmd(keys)]
          && (fails ==> r == Fail(StoreError) && store == old(store))
          && (!fails ==> r == Pass && store == old(store) - (set k | k in keys))
    {
      var keys := DeleteKeys(items, scan, depth);
      if keys == [] {
        return Pass;
      }
      commands := commands + [UnlinkCmd(keys)];
      if fails {
        return Fail(StoreError);
      }
      store := store - (set k | k in keys);
      r := Pass;
    }

    /**
     * Set: dispatches on the argument count (SetPlan); a refused call sends
     * nothing, an accepted one sends exactly one SET.
     */
    method Set(args: seq<Value>, fails: bool) returns (r: Outcome)
      requires TypedArgs(args)
      modifies this
      ensures SetPlan(ext, args).Err? ==>
        r == Fail(SetPlan(ext, args).error) && store == old(store) && commands == old(commands)
      ensures SetPlan(ext, args).Ok? ==>
        var w := SetPlan(ext, args).value;
        && commands == old(commands) + [SetCmd(w)]
        && (fails ==> r == Fail(StoreError) && store == old(store))
        && (!fails ==> r == Pass && store == Apply(old(store), w))
    {
      var plan := SetPlan(ext, args);
      if plan.Err? {
        return Fail(plan.error);
      }
      commands := commands + [SetCmd(plan.value)];
      if fails {
        return Fail(StoreError);
      }
      store := Apply(store, plan.value);
      r := Pass;
    }

    /** Get: the payload of the stored value, its relevance list decoded away. */
    method Get(item: Value, fails: bool) returns (r: Result<Bytes>)
      ensures ext.getKey(item).None? ==> r == Err(InvalidKey)
      ensures ext.getKey(item).Some? && fails ==> r == Err(StoreError)
      ensures ext.getKey(item).Some? && !fails ==>
        var key := ext.getKey(item).value;
        && (r.Ok? <==> key in store)
        && (r.Ok? ==> Payload(store, ext.decodeMeta, key) == Some(r.value))
        && (r.Err? ==> r.error == NotFound)
    {
      var key := ext.getKey(item);
      if key.None? {
        return Err(InvalidKey);
      }
      if fails {
        return Err(StoreError);
      }
      if key.value !in store {
        return Err(NotFound);
      }
      var data := ext.decodeMeta(store[key.value].value).payload;
      r := Ok(data);
    }

    /**
     * MGet: every argument is checked before the store is asked; an MGET
     * of no keys is an error; otherwise the answer keeps the input order,
     * with None where the store holds no value.
     */
    method MGet(items: seq<Value>, fails: bool) returns (r: Result<seq<Option<Bytes>>>)
      ensures (exists i :: 0 <= i < |items| && ext.getKey(items[i]).None?) ==> r == Err(InvalidKey)
      ensures (forall i :: 0 <= i < |items| ==> ext.getKey(items[i]).Some?) && (fails || items == []) ==>
        r == Err(StoreError)
      ensures (forall i :: 0 <= i < |items| ==> ext.getKey(items[i]).Some?) && !fails && items != [] ==>
        && r.Ok? && |r.value| == |items|
        && forall i :: 0 <= i < |items| ==> r.value[i] == Payload(store, ext.decodeMeta, ext.getKey(items[i]).value)
    {
      var cacheKeys := new Key[|items|];
      for i := 0 to |items|
        invariant forall m :: 0 <= m < i ==> ext.getKey(items[m]).Some? && cacheKeys[m] == ext.getKey(items[m]).value
      {
        var key := ext.getKey(items[i]);
        if key.None? {
          return Err(InvalidKey);
        }
        cacheKeys[i] := key.value;
      }
      // An MGET without keys is refused by the store (it needs at least one).
      if fails || cacheKeys.Length == 0 {
        return Err(StoreError);
      }
      var s, ks := store, cacheKeys[..];
      var result := seq(|ks|, i requires 0 <= i < |ks| => if ks[i] in s then Some(s[ks[i]].value) else None);
      var ret := new Option<Bytes>[cacheKeys.Length];
      for i := 0 to |result|
        invariant forall m :: 0 <= m < i ==> ret[m] == Payload(store, ext.decodeMeta, ks[m])
      {
        match result[i]
        case None =>
          ret[i] := None;
        case Some(blob) =>
          ret[i] := Some(ext.decodeMeta(blob).payload);
      }
      r := Ok(ret[..]);
    }
  }

  /**
   * Writing item A relevant to B and item B, then deleting A: the cascade
   * removes exactly A and B, in that order, and B then reads as absent.
   * B's empty relevance list decodes either to no list at all or, as the
   * split on the delimiter gives for an empty section, to the one key "",
   * which the store does not hold.
   */
  lemma CascadeScenario(ext: Externals, store: map<Key, Stored>, scan: Key -> seq<ScanReply>, pa: Bytes, pb: Bytes, fuel: nat)
    requires ext.getKey(Str("A")) == Some("A")
    requires ext.decodeMeta(ext.encode(Item("A", pa, 0, ["B"]))) == Decoded(Some(["B"]), pa)
    requires ext.decodeMeta(ext.encode(Item("B", pb, 0, []))) in {Decoded(None, pb), Decoded(Some([""]), pb)}
    requires "" !in store
    requires fuel >= 2
    ensures SetPlan(ext, [ItemRef(Item("A", pa, 0, ["B"]))]).Ok?
    ensures SetPlan(ext, [ItemRef(Item("B", pb, 0, []))]).Ok?
    ensures
      var s1 := Apply(store, SetPlan(ext, [ItemRef(Item("A", pa, 0, ["B"]))]).value);
      var s2 := Apply(s1, SetPlan(ext, [ItemRef(Item("B", pb, 0, []))]).value);
      var keys := CascadeKeys(View(s2, ext.decodeMeta, scan), ext.getKey, [Str("A")], fuel);
      && keys == ["A", "B"]
      && Payload(s2 - (set k | k in keys), ext.decodeMeta, "B") == None
  {
    var s1 := Apply(store, SetPlan(ext, [ItemRef(Item("A", pa, 0, ["B"]))]).value);
    var s2 := Apply(s1, SetPlan(ext, [ItemRef(Item("B", pb, 0, []))]).value);
    var v := View(s2, ext.decodeMeta, scan);
    assert !HasAsterisk("A") && !HasAsterisk("B") && !HasAsterisk("");
    assert "A" in s2 && s2["A"].value == ext.encode(Item("A", pa, 0, ["B"]));
    assert s2["B"].value == ext.encode(Item("B", pb, 0, []));
    assert "" !in s2;
    assert Resolve(v, "", fuel - 2) == [];
    assert [""][..0] == [];
    assert ResolveAll(v, [""], fuel - 2) == [];
    assert Resolve(v, "B", fuel - 1) == ["B"];
    assert ["B"][..0] == [];
    assert ResolveAll(v, ["B"], fuel - 1) == ["B"];
    assert Resolve(v, "A", fuel) == ["A", "B"];
    assert [Str("A")][..0] == [];
  }
}
