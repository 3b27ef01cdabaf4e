/**
 * Relevance resolution (factoryRelevantKeys and factoryRelevantKeysWithAsterisk
 * in redis.go) as pure functions over a snapshot of the store.
 *
 * The source recursion has no depth bound; here every call carries `fuel`,
 * the number of graph levels it may still visit. With fuel 0 nothing is
 * visited. The Closure module shows that, on a graph whose paths from the
 * root are shorter than the fuel, the result no longer depends on it.
 */
module Relevance {
  import opened CacheTypes

  /**
   * What one resolution sees: the store's entries, the metadata decoder, and
   * for every pattern the replies to the successive SCAN round trips issued
   * for it (the first one starting at cursor 0).
   */
  datatype View = View(store: map<Key, Stored>, decode: Bytes -> Decoded, scan: Key -> seq<ScanReply>)

  /** A page after which the scan goes on: neither an error nor cursor 0. */
  predicate Continuing(r: ScanReply) {
    r.Page? && r.cursor != 0
  }

  /**
   * The keys a pattern scan delivers: the pages are taken in order, a failed
   * round trip ends the scan keeping what was gathered before it, and the
   * page whose cursor is 0 is the last one taken.
   */
  function ScannedKeys(replies: seq<ScanReply>): (r: seq<Key>)
    ensures forall k :: k in r ==> exists i :: 0 <= i < |replies| && replies[i].Page? && k in replies[i].keys
  {
    if replies == [] then []
    else match replies[0]
      case ScanFailed => []
      case Page(ks, cursor) => ks + (if cursor == 0 then [] else ScannedKeys(replies[1..]))
  }

  /** All keys of a run of replies, in order, ignoring cursors. */
  function PageKeys(replies: seq<ScanReply>): seq<Key> {
    if replies == [] then []
    else
      PageKeys(replies[..|replies| - 1])
      + match replies[|replies| - 1]
        case Page(ks, _) => ks
        case ScanFailed => []
  }

  /** The keys resolution expands below `k`: scanned keys for a pattern, the relevance list for a literal. */
  function Children(v: View, k: Key): seq<Key> {
    if HasAsterisk(k) then ScannedKeys(v.scan(k))
    else if k !in v.store then []
    else match v.decode(v.store[k].value).relevant
      case None => []
      case Some(ks) => ks
  }

  /** A key that resolution puts in its result when it visits it: a literal key the store holds. */
  predicate Emits(v: View, k: Key) {
    !HasAsterisk(k) && k in v.store
  }

  /**
   * factoryRelevantKeys: a pattern expands to its scanned keys; an absent
   * literal to nothing; a present literal to itself followed by the
   * expansions of its relevance list, in order, repeats kept.
   */
  function Resolve(v: View, k: Key, fuel: nat): (r: seq<Key>)
    ensures forall j :: j in r ==> Emits(v, j)
    decreases fuel, 0, 0
  {
    if fuel == 0 then []
    else if HasAsterisk(k) then ResolveAll(v, ScannedKeys(v.scan(k)), fuel - 1)
    else if k !in v.store then []
    else match v.decode(v.store[k].value).relevant
      case None => [k]
      case Some(ks) => [k] + ResolveAll(v, ks, fuel - 1)
  }

  /** The in-order concatenation of the expansions of `ks`. */
  function ResolveAll(v: View, ks: seq<Key>, fuel: nat): (r: seq<Key>)
    ensures forall j :: j in r ==> Emits(v, j)
    decreases fuel, 1, |ks|
  {
    if ks == [] then []
    else ResolveAll(v, ks[..|ks| - 1], fuel) + Resolve(v, ks[|ks| - 1], fuel)
  }

  /** One step of Resolve, written uniformly through Emits and Children. */
  lemma ResolveUnfold(v: View, k: Key, fuel: nat)
    requires fuel > 0
    ensures Resolve(v, k, fuel) == (if Emits(v, k) then [k] else []) + ResolveAll(v, Children(v, k), fuel - 1)
  {
    if !HasAsterisk(k) && k in v.store && v.decode(v.store[k].value).relevant.None? {
      assert ResolveAll(v, [], fuel - 1) == [];
    }
  }

  /** Resolving a list splits along any split of the list. */
  lemma {:induction false} ResolveAllAppend(v: View, a: seq<Key>, b: seq<Key>, fuel: nat)
    ensures ResolveAll(v, a + b, fuel) == ResolveAll(v, a, fuel) + ResolveAll(v, b, fuel)
    decreases |b|
  {
    if b == [] {
      assert a + b == a;
    } else {
      var b' := b[..|b| - 1];
      assert (a + b)[..|a + b| - 1] == a + b';
      assert (a + b)[|a + b| - 1] == b[|b| - 1];
      ResolveAllAppend(v, a, b', fuel);
    }
  }

  /** Resolving one more key of a list appends its expansion. */
  lemma ResolveAllSnoc(v: View, gathered: seq<Key>, page: seq<Key>, j: nat, fuel: nat)
    requires j < |page|
    ensures ResolveAll(v, gathered + page[..j + 1], fuel) == ResolveAll(v, gathered + page[..j], fuel) + Resolve(v, page[j], fuel)
  {
    var after := gathered + page[..j + 1];
    assert after[..|after| - 1] == gathered + page[..j];
    assert after[|after| - 1] == page[j];
  }

  /** Taking one more page appends its keys. */
  lemma PageKeysSnoc(replies: seq<ScanReply>, i: nat)
    requires i < |replies| && replies[i].Page?
    ensures PageKeys(replies[..i + 1]) == PageKeys(replies[..i]) + replies[i].keys[..|replies[i].keys|]
  {
    assert replies[..i + 1][..i] == replies[..i];
    assert replies[i].keys[..|replies[i].keys|] == replies[i].keys;
  }

  /** ScannedKeys walks past every continuing page, collecting its keys. */
  lemma {:induction false} ScannedKeysAfter(replies: seq<ScanReply>, i: nat)
    requires i <= |replies|
    requires forall m :: 0 <= m < i ==> Continuing(replies[m])
    ensures ScannedKeys(replies) == PageKeys(replies[..i]) + ScannedKeys(replies[i..])
  {
    if i == 0 {
      assert replies[..0] == [];
      assert replies[0..] == replies;
    } else {
      ScannedKeysAfter(replies, i - 1);
      var rest := replies[i - 1..];
      assert rest[0] == replies[i - 1];
      assert rest[1..] == replies[i..];
      assert replies[..i][..i - 1] == replies[..i - 1];
    }
  }

  /**
   * The scan stops at the first failed round trip, keeping the keys of the
   * pages before it, and after the first page whose cursor is 0, ignoring
   * every later reply.
   */
  lemma ScanStops(replies: seq<ScanReply>, i: nat)
    requires i < |replies|
    requires forall m :: 0 <= m < i ==> Continuing(replies[m])
    ensures replies[i].ScanFailed? ==> ScannedKeys(replies) == PageKeys(replies[..i])
    ensures replies[i].Page? && replies[i].cursor == 0 ==> ScannedKeys(replies) == PageKeys(replies[..i + 1])
  {
    ScannedKeysAfter(replies, i);
    var rest := replies[i..];
    assert rest[0] == replies[i];
    assert replies[..i + 1][..i] == replies[..i];
  }

  /** Two stores that agree on every key without '*'. */
  ghost predicate SameLiterals(s: map<Key, Stored>, t: map<Key, Stored>) {
    forall j :: !HasAsterisk(j) ==> (j in s <==> j in t) && (j in s ==> s[j] == t[j])
  }

  /**
   * The value stored under a key containing '*' is never read: with the SCAN
   * replies kept fixed, changing such entries never changes a resolution.
   */
  lemma {:induction false} ResolveIgnoresPatternEntries(v: View, s: map<Key, Stored>, k: Key, fuel: nat)
    requires SameLiterals(v.store, s)
    ensures Resolve(v, k, fuel) == Resolve(v.(store := s), k, fuel)
    decreases fuel, 0, 0
  {
    var w := v.(store := s);
    if fuel > 0 {
      ResolveUnfold(v, k, fuel);
      ResolveUnfold(w, k, fuel);
      assert Children(v, k) == Children(w, k);
      assert Emits(v, k) == Emits(w, k);
      ResolveAllIgnoresPatternEntries(v, s, Children(v, k), fuel - 1);
    }
  }

  lemma {:induction false} ResolveAllIgnoresPatternEntries(v: View, s: map<Key, Stored>, ks: seq<Key>, fuel: nat)
    requires SameLiterals(v.store, s)
    ensures ResolveAll(v, ks, fuel) == ResolveAll(v.(store := s), ks, fuel)
    decreases fuel, 1, |ks|
  {
    if ks != [] {
      ResolveAllIgnoresPatternEntries(v, s, ks[..|ks| - 1], fuel);
      ResolveIgnoresPatternEntries(v, s, ks[|ks| - 1], fuel);
    }
  }
}
