/**
 * The write and read paths of redis.go: Set's argument dispatch and TTL
 * handling, and the payload a Get or MGet returns for a stored entry.
 */
module WritePath {
  import opened CacheTypes
  import opened Relevance

  /** One SET command: the key, the bytes sent, and the expiry in seconds, if any. */
  datatype Write = Write(key: Key, value: Bytes, expiry: Option<nat>)

  /** A TTL that is not positive means no expiry; a positive one expires after that many seconds. */
  function Expiry(ttl: int): (e: Option<nat>)
    ensures e.Some? <==> ttl > 0
    ensures e.Some? ==> e.value == ttl
  {
    if ttl > 0 then Some(ttl) else None
  }

  /**
   * The argument shapes the source asserts without checking: with two or
   * three arguments the first is a string, and with three the third is an int.
   */
  predicate TypedArgs(args: seq<Value>) {
    && (|args| == 2 || |args| == 3 ==> args[0].Str?)
    && (|args| == 3 ==> args[2].Int?)
  }

  /**
   * Set's dispatch as written: its switch has no default case, so four or
   * more arguments leave key, value and TTL at their zero values.
   */
  function SetPlanAsWritten(ext: Externals, args: seq<Value>): (r: Result<Write>)
    requires TypedArgs(args)
    ensures r.Err? <==> |args| == 0 || (|args| == 1 && !args[0].ItemRef?)
    ensures r.Ok? && r.value.expiry.Some? ==> |args| == 1 || |args| == 3
  {
    if |args| == 0 then Err(NotEnoughArguments)
    else if |args| == 1 then
      match args[0]
      case ItemRef(item) => Ok(Write(item.key, ext.encode(item), Expiry(item.ttl)))
      case _ => Err(NotAnItem)
    else if |args| == 2 then Ok(Write(args[0].s, ext.marshal(args[1]), Expiry(0)))
    else if |args| == 3 then Ok(Write(args[0].s, ext.marshal(args[1]), Expiry(args[2].n)))
    else Ok(Write("", ext.marshal(Nil), Expiry(0)))
  }

  /** Set's dispatch with the documented argument counts enforced. */
  function SetPlan(ext: Externals, args: seq<Value>): (r: Result<Write>)
    requires TypedArgs(args)
    ensures r.Ok? ==> 1 <= |args| <= 3
    ensures |args| > 3 ==> r == Err(TooManyArguments)
  {
    if |args| > 3 then Err(TooManyArguments) else SetPlanAsWritten(ext, args)
  }

  /** The store after a successful SET. */
  function Apply(store: map<Key, Stored>, w: Write): map<Key, Stored> {
    store[w.key := Stored(w.value, w.expiry)]
  }

  /** The payload Get returns for `k`, or None when the store does not hold it. */
  function Payload(store: map<Key, Stored>, decode: Bytes -> Decoded, k: Key): Option<Bytes> {
    if k in store then Some(decode(store[k].value).payload) else None
  }

  /** The source's Set writes the empty key when given four or more arguments. */
  lemma ExtraArgumentsWriteEmptyKey(ext: Externals, args: seq<Value>)
    requires TypedArgs(args) && |args| >= 4
    ensures SetPlanAsWritten(ext, args) == Ok(Write("", ext.marshal(Nil), None))
  {
  }

  /**
   * Set accepts exactly one item, or a key and a value with an optional
   * TTL; the TTL becomes an expiry only when positive, and the two-argument
   * form never expires.
   */
  lemma SetDispatch(ext: Externals, args: seq<Value>)
    requires TypedArgs(args)
    ensures SetPlan(ext, args).Ok? <==> 1 <= |args| <= 3 && (|args| == 1 ==> args[0].ItemRef?)
    ensures |args| == 0 ==> SetPlan(ext, args) == Err(NotEnoughArguments)
    ensures |args| == 1 && !args[0].ItemRef? ==> SetPlan(ext, args) == Err(NotAnItem)
    ensures |args| == 1 && args[0].ItemRef? ==>
      var item := args[0].item;
      SetPlan(ext, args).value.key == item.key &&
      SetPlan(ext, args).value.value == ext.encode(item) &&
      SetPlan(ext, args).value.expiry == Expiry(item.ttl) &&
      (SetPlan(ext, args).value.expiry.Some? <==> item.ttl > 0)
    ensures 2 <= |args| <= 3 ==>
      SetPlan(ext, args).value.key == args[0].s && SetPlan(ext, args).value.value == ext.marshal(args[1])
    ensures |args| == 2 ==> SetPlan(ext, args).value.expiry == None
    ensures |args| == 3 ==>
      (SetPlan(ext, args).value.expiry.Some? <==> args[2].n > 0) &&
      (args[2].n > 0 ==> SetPlan(ext, args).value.expiry == Some(args[2].n as nat))
  {
  }

  /** The corrected dispatch agrees with the source on every documented argument count. */
  lemma SetPlanAgreesUpToThree(ext: Externals, args: seq<Value>)
    requires TypedArgs(args) && |args| <= 3
    ensures SetPlan(ext, args) == SetPlanAsWritten(ext, args)
  {
  }

  /**
   * Writing an item and reading it back: when the codec gives back the
   * item's payload, Get returns that payload, the expiry follows the item's
   * TTL, and no other key changes.
   */
  lemma SetItemThenGet(ext: Externals, store: map<Key, Stored>, item: Item)
    requires ext.decodeMeta(ext.encode(item)).payload == item.payload
    ensures SetPlan(ext, [ItemRef(item)]).Ok?
    ensures var after := Apply(store, SetPlan(ext, [ItemRef(item)]).value);
      && Payload(after, ext.decodeMeta, item.key) == Some(item.payload)
      && after[item.key].expireSeconds == Expiry(item.ttl)
      && forall k :: k != item.key ==> (k in after <==> k in store) && (k in store ==> after[k] == store[k])
  {
  }

  /**
   * The relevance list the codec gives back for an item: its own list, or,
   * for an item relevant to nothing, no list at all or the one key "" that
   * splitting an empty section produces.
   */
  predicate RelevanceRoundTrips(item: Item, relevant: Option<seq<Key>>) {
    || relevant == Some(item.relevantKeys)
    || (item.relevantKeys == [] && (relevant == None || relevant == Some([""])))
  }

  /**
   * After an item is written under a literal key, resolving that key yields
   * the key followed by the expansions of the decoded relevance list; for an
   * item relevant to nothing that is the key alone, unless the empty key ""
   * is itself stored.
   */
  lemma SetItemThenResolve(ext: Externals, store: map<Key, Stored>, scan: Key -> seq<ScanReply>, item: Item, fuel: nat)
    requires RelevanceRoundTrips(item, ext.decodeMeta(ext.encode(item)).relevant)
    requires !HasAsterisk(item.key) && fuel > 0
    ensures SetPlan(ext, [ItemRef(item)]).Ok?
    ensures var v := View(Apply(store, SetPlan(ext, [ItemRef(item)]).value), ext.decodeMeta, scan);
      var listed := ext.decodeMeta(ext.encode(item)).relevant;
      Resolve(v, item.key, fuel) == [item.key] + ResolveAll(v, if listed.Some? then listed.value else [], fuel - 1)
    ensures var v := View(Apply(store, SetPlan(ext, [ItemRef(item)]).value), ext.decodeMeta, scan);
      item.relevantKeys != [] ==> Resolve(v, item.key, fuel) == [item.key] + ResolveAll(v, item.relevantKeys, fuel - 1)
    ensures var v := View(Apply(store, SetPlan(ext, [ItemRef(item)]).value), ext.decodeMeta, scan);
      item.relevantKeys == [] && "" !in store && item.key != "" ==> Resolve(v, item.key, fuel) == [item.key]
  {
    var v := View(Apply(store, SetPlan(ext, [ItemRef(item)]).value), ext.decodeMeta, scan);
    if item.relevantKeys == [] && "" !in store && item.key != "" {
      assert "" !in v.store && !HasAsterisk("");
      assert Resolve(v, "", fuel - 1) == [];
      assert [""][..0] == [];
      assert ResolveAll(v, [""], fuel - 1) == [];
    }
  }
}
