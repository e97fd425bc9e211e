/** The image proxy's cache: entries live for a fixed time, at most a fixed
    number of them is kept, and the oldest go first. It agrees with a
    specification that looks only at the history of what was stored. */
module ImageCache {

  type byte = bv8

  /** One call of set: when, under which key, and what. */
  datatype Stored = Stored(key: string, bytes: seq<byte>, contentType: string, at: nat)

  // ---- The specification ----

  /** The position of the last set of a key, or -1. */
  function LastSet(h: seq<Stored>, key: string): (i: int)
    ensures -1 <= i < |h|
    ensures i >= 0 ==> h[i].key == key
  {
    if h == [] then -1
    else if h[|h| - 1].key == key then |h| - 1
    else LastSet(h[..|h| - 1], key)
  }

  lemma {:induction false} LastSetIsLast(h: seq<Stored>, key: string)
    ensures forall j :: LastSet(h, key) < j < |h| ==> h[j].key != key
    decreases |h|
  {
    if h != [] && h[|h| - 1].key != key {
      LastSetIsLast(h[..|h| - 1], key);
    }
  }

  function KeysSince(h: seq<Stored>, i: int): set<string>
    requires -1 <= i < |h|
  {
    set j | i < j < |h| :: h[j].key
  }

  /** A key hits when it was set less than ttl ago and fewer than maxEntries
      other keys were set since. */
  predicate Hits(h: seq<Stored>, ttl: nat, maxEntries: nat, now: nat, key: string) {
    var i := LastSet(h, key);
    i >= 0 && now < h[i].at + ttl && |KeysSince(h, i)| < maxEntries
  }

  // ---- What the cache keeps of the history ----

  /** Sets happen at strictly increasing times. */
  ghost predicate Ordered(h: seq<Stored>) {
    forall i, j :: 0 <= i < j < |h| ==> h[i].at < h[j].at
  }

  /** What is kept is what was last stored, under a key that was not pushed out
      since, and everything that would hit by now is kept. */
  ghost predicate Agrees(view: map<string, Stored>, h: seq<Stored>, ttl: nat, maxEntries: nat, clock: nat) {
    && Ordered(h)
    && (forall i :: 0 <= i < |h| ==> h[i].at <= clock)
    && |view.Keys| <= maxEntries
    && (forall k :: k in view ==> KeptRightly(view[k], h, maxEntries, k))
    && (forall k :: Hits(h, ttl, maxEntries, clock, k) ==> k in view)
  }

  ghost predicate KeptRightly(kept: Stored, h: seq<Stored>, maxEntries: nat, k: string) {
    var i := LastSet(h, k);
    i >= 0 && kept == h[i] && |KeysSince(h, i)| < maxEntries
  }

  /** What is kept under a key is what was set last, in whatever order the sets
      read the clock. */
  ghost predicate LastOnly(view: map<string, Stored>, h: seq<Stored>) {
    forall k :: k in view ==> LastSet(h, k) >= 0 && view[k] == h[LastSet(h, k)]
  }

  ghost predicate Bounded(view: map<string, Stored>, h: seq<Stored>, maxEntries: nat) {
    |view.Keys| <= maxEntries && LastOnly(view, h)
  }

  lemma BoundedWithout(view: map<string, Stored>, t: map<string, Stored>, h: seq<Stored>, maxEntries: nat, key: string)
    requires Bounded(view, h, maxEntries) && t == map k | k in view && k != key :: view[k]
    ensures Bounded(t, h, maxEntries)
  {
    SubsetCard(t.Keys, view.Keys);
  }

  lemma AgreementIsOfTheLast(view: map<string, Stored>, h: seq<Stored>, ttl: nat, maxEntries: nat, clock: nat)
    requires Agrees(view, h, ttl, maxEntries, clock)
    ensures Bounded(view, h, maxEntries)
  {
    forall k | k in view
      ensures LastSet(h, k) >= 0 && view[k] == h[LastSet(h, k)]
    {
      assert KeptRightly(view[k], h, maxEntries, k);
    }
  }

  lemma LastOnlyAfterSet(before: map<string, Stored>, after: map<string, Stored>, h: seq<Stored>, e: Stored,
                         kept: set<string>)
    requires LastOnly(before, h)
    requires kept <= before[e.key := e].Keys && after == (map k | k in kept :: before[e.key := e][k])
    ensures LastOnly(after, h + [e])
  {
    forall k | k in after
      ensures LastSet(h + [e], k) >= 0 && after[k] == (h + [e])[LastSet(h + [e], k)]
    {
      OneMoreSet(h, e, k);
    }
  }

  lemma HitsIffKept(view: map<string, Stored>, h: seq<Stored>, ttl: nat, maxEntries: nat, clock: nat, now: nat,
                    k: string)
    requires Agrees(view, h, ttl, maxEntries, clock) && clock <= now
    ensures Hits(h, ttl, maxEntries, now, k) <==> k in view && now < view[k].at + ttl
    ensures k in view ==> LastSet(h, k) >= 0 && view[k] == h[LastSet(h, k)]
  {
    if k in view {
      assert KeptRightly(view[k], h, maxEntries, k);
    }
    if Hits(h, ttl, maxEntries, now, k) {
      assert Hits(h, ttl, maxEntries, clock, k);
    }
  }

  lemma OneMoreSet(h: seq<Stored>, e: Stored, k: string)
    ensures LastSet(h + [e], k) == if k == e.key then |h| else LastSet(h, k)
    ensures k == e.key ==> KeysSince(h + [e], |h|) == {}
    ensures k != e.key && LastSet(h, k) >= 0 ==>
      KeysSince(h + [e], LastSet(h, k)) == KeysSince(h, LastSet(h, k)) + {e.key}
  {
    assert (h + [e])[..|h|] == h;
    var i := LastSet(h, k);
    if k != e.key && i >= 0 {
      var t := h + [e];
      assert forall j :: i < j < |h| ==> t[j] == h[j];
      forall x | x in KeysSince(h, i) + {e.key}
        ensures x in KeysSince(t, i)
      {
        if x == e.key {
          assert t[|h|].key == x;
        } else {
          var j :| i < j < |h| && h[j].key == x;
          assert t[j].key == x;
        }
      }
    }
  }

  lemma LaterSetsAreFewer(h: seq<Stored>, i: int, j: int)
    requires -1 <= i <= j < |h|
    ensures KeysSince(h, j) <= KeysSince(h, i)
    ensures |KeysSince(h, j)| <= |KeysSince(h, i)|
  {
    SubsetCard(KeysSince(h, j), KeysSince(h, i));
  }

  lemma {:induction false} SubsetCard<T>(a: set<T>, b: set<T>)
    requires a <= b
    ensures |a| <= |b|
    decreases |a|
  {
    if a != {} {
      var x :| x in a;
      SubsetCard(a - {x}, b - {x});
    }
  }

  /** A key set after an entry that has not expired is kept as well. */
  lemma NewerIsKept(view: map<string, Stored>, h: seq<Stored>, ttl: nat, maxEntries: nat, clock: nat, now: nat,
                    k: string, j: string)
    requires Agrees(view, h, ttl, maxEntries, clock) && clock <= now
    requires k in view && now < view[k].at + ttl && j in KeysSince(h, LastSet(h, k))
    ensures LastSet(h, j) > LastSet(h, k) && j != k
    ensures j in view && view[j] == h[LastSet(h, j)] && view[j].at > view[k].at
  {
    assert KeptRightly(view[k], h, maxEntries, k);
    var i := LastSet(h, k);
    var p :| i < p < |h| && h[p].key == j;
    LastSetIsLast(h, k);
    LastSetIsLast(h, j);
    assert LastSet(h, j) >= p;
    LaterSetsAreFewer(h, i, LastSet(h, j));
    assert Hits(h, ttl, maxEntries, clock, j);
    assert KeptRightly(view[j], h, maxEntries, j);
  }

  function Alive(m: map<string, Stored>, ttl: nat, now: nat): set<string> {
    set k | k in m && now < m[k].at + ttl
  }

  /** What an eviction leaves: of the entries that have not expired as many as
      there is room for, and none of them older than one that went. */
  ghost predicate EvictedTo(m: map<string, Stored>, ttl: nat, maxEntries: nat, now: nat, kept: set<string>) {
    var alive := Alive(m, ttl, now);
    && kept <= alive
    && |kept| == (if |alive| <= maxEntries then |alive| else maxEntries)
    && forall gone, k :: gone in alive - kept && k in kept ==> m[gone].at <= m[k].at
  }

  /** The entries a set works on, before eviction. */
  ghost predicate Setting(view: map<string, Stored>, h: seq<Stored>, ttl: nat, maxEntries: nat, clock: nat,
                          e: Stored, alive: set<string>, kept: set<string>) {
    && Agrees(view, h, ttl, maxEntries, clock)
    && clock <= e.at && (forall i :: 0 <= i < |h| ==> h[i].at < e.at)
    && ttl > 0 && maxEntries > 0
    && alive == Alive(view[e.key := e], ttl, e.at)
    && EvictedTo(view[e.key := e], ttl, maxEntries, e.at, kept)
  }

  lemma AliveIsSmall(view: map<string, Stored>, h: seq<Stored>, ttl: nat, maxEntries: nat, clock: nat,
                     e: Stored, alive: set<string>, kept: set<string>)
    requires Setting(view, h, ttl, maxEntries, clock, e, alive, kept)
    ensures e.key in alive && |alive| <= maxEntries + 1
    ensures kept == alive || (|alive| == maxEntries + 1 && exists gone :: gone in alive && kept == alive - {gone})
  {
    assert alive <= view.Keys + {e.key};
    SubsetCard(alive, view.Keys + {e.key});
    if kept != alive {
      SubsetCard(kept, alive);
      var gone :| gone in alive - kept;
      assert kept <= alive - {gone};
      SameCard(kept, alive - {gone});
    } 
  }

  lemma SameCard<T>(a: set<T>, b: set<T>)
    requires a <= b && |a| >= |b|
    ensures a == b
  {
    if !(b <= a) {
      var x :| x in b && x !in a;
      SubsetCard(a, b - {x});
    }
  }

  /** A key set since k, which is alive, is alive too, and newer. */
  lemma SinceIsAlive(view: map<string, Stored>, h: seq<Stored>, ttl: nat, maxEntries: nat, clock: nat,
                     e: Stored, k: string, j: string)
    requires Agrees(view, h, ttl, maxEntries, clock) && clock <= e.at && ttl > 0
    requires k in view && view[k].at < e.at < view[k].at + ttl && k != e.key
    requires j in KeysSince(h, LastSet(h, k)) + {e.key}
    ensures j in Alive(view[e.key := e], ttl, e.at) && j != k && view[e.key := e][j].at > view[k].at
  {
    if j != e.key {
      NewerIsKept(view, h, ttl, maxEntries, clock, e.at, k, j);
    }
  }

  lemma RoomByCount(since: set<string>, alive: set<string>, kept: set<string>, k: string, newer: set<string>)
    requires since <= newer && newer <= alive && k in kept && k !in newer && kept <= alive
    requires kept == alive || exists gone :: gone in alive && gone !in newer && kept == alive - {gone}
    ensures |since| < |kept|
  {
    if kept == alive {
      SubsetCard(since, alive - {k});
    } else {
      var gone :| gone in alive && gone !in newer && kept == alive - {gone};
      SubsetCard(since, alive - {k} - {gone});
    }
  }

  lemma KeptHasRoom(view: map<string, Stored>, h: seq<Stored>, ttl: nat, maxEntries: nat, clock: nat,
                    e: Stored, alive: set<string>, kept: set<string>, k: string)
    requires Setting(view, h, ttl, maxEntries, clock, e, alive, kept) && k in kept
    ensures KeptRightly(view[e.key := e][k], h + [e], maxEntries, k)
  {
    OneMoreSet(h, e, k);
    if k != e.key {
      var m := view[e.key := e];
      assert KeptRightly(view[k], h, maxEntries, k);
      var since := KeysSince(h, LastSet(h, k)) + {e.key};
      var newer := set j | j in alive && m[j].at > m[k].at;
      forall j | j in since
        ensures j in newer
      {
        SinceIsAlive(view, h, ttl, maxEntries, clock, e, k, j);
      }
      AliveIsSmall(view, h, ttl, maxEntries, clock, e, alive, kept);
      assert forall gone :: gone in alive && kept == alive - {gone} ==> gone !in newer;
      RoomByCount(since, alive, kept, k, newer);
    }
  }

  /** The entry just set is never evicted: no other is as new. */
  lemma NewestIsKept(view: map<string, Stored>, h: seq<Stored>, ttl: nat, maxEntries: nat, clock: nat,
                     e: Stored, alive: set<string>, kept: set<string>)
    requires Setting(view, h, ttl, maxEntries, clock, e, alive, kept)
    ensures e.key in kept
  {
    AliveIsSmall(view, h, ttl, maxEntries, clock, e, alive, kept);
    assert kept != {};
    var k :| k in kept;
    if k != e.key {
      assert KeptRightly(view[k], h, maxEntries, k);
    }
  }

  lemma OldHitIsKept(view: map<string, Stored>, h: seq<Stored>, ttl: nat, maxEntries: nat, clock: nat,
                     e: Stored, alive: set<string>, kept: set<string>, k: string)
    requires Setting(view, h, ttl, maxEntries, clock, e, alive, kept)
    requires k in alive && k != e.key && k in view
    requires |KeysSince(h, LastSet(h, k)) + {e.key}| < maxEntries
    ensures k in kept
  {
    if k !in kept {
      forall j | j in kept
        ensures j in KeysSince(h, LastSet(h, k)) + {e.key}
      {
        if j != e.key {
          assert KeptRightly(view[k], h, maxEntries, k) && KeptRightly(view[j], h, maxEntries, j);
          NewerWasSetSince(h, k, j);
        }
      }
      SubsetCard(kept, KeysSince(h, LastSet(h, k)) + {e.key});
      SameCard(kept, alive);
    }
  }

  lemma NewerWasSetSince(h: seq<Stored>, k: string, j: string)
    requires Ordered(h) && LastSet(h, k) >= 0 && LastSet(h, j) >= 0
    requires j != k && h[LastSet(h, k)].at <= h[LastSet(h, j)].at
    ensures j in KeysSince(h, LastSet(h, k))
  {
    var a, b := LastSet(h, k), LastSet(h, j);
    assert a < b && h[b].key == j;
  }

  /** Another key that hits after a set was kept before it, and had room to spare. */
  lemma HitWasKept(view: map<string, Stored>, h: seq<Stored>, ttl: nat, maxEntries: nat, clock: nat,
                   e: Stored, k: string)
    requires Agrees(view, h, ttl, maxEntries, clock) && clock <= e.at
    requires Hits(h + [e], ttl, maxEntries, e.at, k) && k != e.key
    ensures k in view && e.at < view[k].at + ttl
    ensures LastSet(h, k) >= 0 && |KeysSince(h, LastSet(h, k)) + {e.key}| < maxEntries
  {
    OneMoreSet(h, e, k);
    SubsetCard(KeysSince(h, LastSet(h, k)), KeysSince(h, LastSet(h, k)) + {e.key});
    assert Hits(h, ttl, maxEntries, clock, k);
    assert KeptRightly(view[k], h, maxEntries, k);
  }

  lemma HitIsKept(view: map<string, Stored>, h: seq<Stored>, ttl: nat, maxEntries: nat, clock: nat,
                  e: Stored, alive: set<string>, kept: set<string>, k: string)
    requires Setting(view, h, ttl, maxEntries, clock, e, alive, kept)
    requires Hits(h + [e], ttl, maxEntries, e.at, k)
    ensures k in kept
  {
    if k == e.key {
      NewestIsKept(view, h, ttl, maxEntries, clock, e, alive, kept);
    } else {
      HitWasKept(view, h, ttl, maxEntries, clock, e, k);
      OldHitIsKept(view, h, ttl, maxEntries, clock, e, alive, kept, k);
    }
  }

  lemma OrderedAfter(h: seq<Stored>, e: Stored)
    requires Ordered(h) && forall i :: 0 <= i < |h| ==> h[i].at < e.at
    ensures Ordered(h + [e]) && forall i :: 0 <= i < |h + [e]| ==> (h + [e])[i].at <= e.at
  {
  }

  /** A set keeps the agreement. */
  lemma SetKeepsAgreement(view: map<string, Stored>, h: seq<Stored>, ttl: nat, maxEntries: nat, clock: nat,
                          e: Stored, alive: set<string>, kept: set<string>)
    requires Setting(view, h, ttl, maxEntries, clock, e, alive, kept)
    ensures Agrees(map k | k in kept :: view[e.key := e][k], h + [e], ttl, maxEntries, e.at)
  {
    var t := map k | k in kept :: view[e.key := e][k];
    assert t.Keys == kept;
    OrderedAfter(h, e);
    forall k | k in t
      ensures KeptRightly(t[k], h + [e], maxEntries, k)
    {
      KeptHasRoom(view, h, ttl, maxEntries, clock, e, alive, kept, k);
    }
    forall k | Hits(h + [e], ttl, maxEntries, e.at, k)
      ensures k in t
    {
      HitIsKept(view, h, ttl, maxEntries, clock, e, alive, kept, k);
    }
  }

  /** Without the strict order of the readings a set can lose its own entry. For
      one entry over the maximum: every possible eviction keeps the entry just
      set if and only if some other that has not expired was read strictly
      before it. */
  lemma JustSetSurvivesExactly(m: map<string, Stored>, ttl: nat, maxEntries: nat, key: string, now: nat)
    requires key in m && m[key].at == now && ttl > 0 && |Alive(m, ttl, now)| == maxEntries + 1
    ensures
      (forall kept: set<string> :: EvictedTo(m, ttl, maxEntries, now, kept) ==> key in kept) <==>
      (exists j :: j in Alive(m, ttl, now) && m[j].at < now)
  {
    var alive := Alive(m, ttl, now);
    if j :| j in alive && m[j].at < now {
      forall kept: set<string> | EvictedTo(m, ttl, maxEntries, now, kept)
        ensures key in kept
      {
        if key !in kept {
          SameCard(kept, alive - {key});
          assert false;
        }
      }
    } else {
      assert EvictedTo(m, ttl, maxEntries, now, alive - {key});
    }
  }

  /** So it happens: b reads the clock after a but locks first, and a is evicted
      by its own set, although it was the last to be set. */
  lemma SetOutOfOrderIsLost(a: Stored, b: Stored, ttl: nat, kept: set<string>)
    requires a.key != b.key && a.at < b.at < a.at + ttl
    requires EvictedTo(map[b.key := b][a.key := a], ttl, 1, a.at, kept)
    ensures kept == {b.key} && Hits([b] + [a], ttl, 1, b.at, a.key)
  {
    var m := map[b.key := b][a.key := a];
    OneMoreSet([b], a, a.key);
    assert Alive(m, ttl, a.at) == {a.key, b.key};
    assert kept <= {a.key, b.key} && |kept| == 1;
    if a.key in kept {
      SameCard({a.key}, kept);
      assert false;
    }
    assert kept <= {b.key};
    SameCard(kept, {b.key});
  }

  lemma RecordAgrees(before: map<string, Stored>, after: map<string, Stored>, h: seq<Stored>, ttl: nat, maxEntries: nat,
                     clock: nat, e: Stored, kept: set<string>)
    requires Agrees(before, h, ttl, maxEntries, clock) && ttl > 0 && maxEntries > 0
    requires clock <= e.at && forall i :: 0 <= i < |h| ==> h[i].at < e.at
    requires kept <= before[e.key := e].Keys && after == (map k | k in kept :: before[e.key := e][k])
    requires EvictedTo(before[e.key := e], ttl, maxEntries, e.at, kept)
    ensures Agrees(after, h + [e], ttl, maxEntries, e.at)
  {
    SetKeepsAgreement(before, h, ttl, maxEntries, clock, e, Alive(before[e.key := e], ttl, e.at), kept);
  }

  predicate AllBefore(h: seq<Stored>, now: nat) {
    forall i :: 0 <= i < |h| ==> h[i].at < now
  }

  // ---- The cache ----

  function Bytes(a: array?<byte>): seq<byte>
    reads a
  {
    if a == null then [] else a[..]
  }

  /** Copies a buffer; an empty one has no copy. */
  method CloneBytes(src: array?<byte>) returns (dst: array?<byte>)
    ensures Bytes(dst) == Bytes(src)
    ensures dst != null ==> fresh(dst)
    ensures dst == null <==> |Bytes(src)| == 0
  {
    if src == null || src.Length == 0 {
      return null;
    }
    var copy := new byte[src.Length](i requires 0 <= i < src.Length reads src => src[i]);
    assert copy[..] == src[..];
    dst := copy;
  }

  datatype Item = Item(body: array?<byte>, contentType: string, expiresAt: nat, storedAt: nat)

  const DEFAULT_TTL: nat := 1_800_000_000_000
  const DEFAULT_MAX_ENTRIES: nat := 64

  function Unexpired(items: map<string, Item>, now: nat): map<string, Item> {
    map k | k in items && items[k].expiresAt > now :: items[k]
  }

  /** Walks over the entries in any order and deletes what has expired. */
  method DropExpired(all: map<string, Item>, now: nat) returns (items: map<string, Item>)
    ensures items == Unexpired(all, now)
  {
    items := all;
    var todo := items.Keys;
    while todo != {}
      invariant todo <= items.Keys <= all.Keys
      invariant forall k :: k in items ==> items[k] == all[k]
      invariant forall k :: k in items && k !in todo ==> all[k].expiresAt > now
      invariant forall k :: k in all && all[k].expiresAt > now ==> k in items
      decreases |todo|
    {
      var key :| key in todo;
      todo := todo - {key};
      if !(items[key].expiresAt > now) {
        items := map k | k in items && k != key :: items[k];
      }
    }
  }

  /** Walks over the entries in any order for the one stored first. The empty
      string stands for none found yet, hence it must not be a key. */
  method Oldest(items: map<string, Item>) returns (oldestKey: string)
    requires "" !in items
    ensures oldestKey == "" <==> items == map[]
    ensures oldestKey != "" ==>
      oldestKey in items && forall k :: k in items ==> items[oldestKey].storedAt <= items[k].storedAt
  {
    oldestKey := "";
    var oldestAt := 0;
    var todo := items.Keys;
    while todo != {}
      invariant todo <= items.Keys
      invariant oldestKey == "" ==> todo == items.Keys
      invariant oldestKey != "" ==> oldestKey in items && items[oldestKey].storedAt == oldestAt
      invariant forall k :: k in items && k !in todo ==> oldestKey != "" && oldestAt <= items[k].storedAt
      decreases |todo|
    {
      var key :| key in todo;
      todo := todo - {key};
      if oldestKey == "" || items[key].storedAt < oldestAt {
        oldestKey := key;
        oldestAt := items[key].storedAt;
      }
    }
  }

  /** The newest entries, as many as there is room for. */
  ghost predicate NewestOf(all: map<string, Item>, items: map<string, Item>, maxEntries: nat) {
    && items.Keys <= all.Keys
    && (forall k :: k in items ==> items[k] == all[k])
    && |items.Keys| == (if |all.Keys| <= maxEntries then |all.Keys| else maxEntries)
    && forall gone, k :: gone in all && gone !in items && k in items ==> all[gone].storedAt <= all[k].storedAt
  }

  method EvictOldest(all: map<string, Item>, maxEntries: nat) returns (items: map<string, Item>)
    requires "" !in all
    ensures NewestOf(all, items, maxEntries)
  {
    items := all;
    while |items| > maxEntries
      invariant items.Keys <= all.Keys && forall k :: k in items ==> items[k] == all[k]
      invariant |items.Keys| >= (if |all.Keys| <= maxEntries then |all.Keys| else maxEntries)
      invariant forall gone, k :: gone in all && gone !in items && k in items ==> all[gone].storedAt <= all[k].storedAt
      decreases |items|
    {
      var oldestKey := Oldest(items);
      if oldestKey == "" {
        break;
      }
      ghost var keys := items.Keys;
      items := map k | k in items && k != oldestKey :: items[k];
      assert items.Keys == keys - {oldestKey};
    }
  }

  class ImageProxyCache {
    const ttl: nat
    const maxEntries: nat
    var items: map<string, Item>
    ghost var contents: map<string, Stored>
    ghost var history: seq<Stored>
    ghost var clock: nat
    ghost var Repr: set<array<byte>>

    /** The entry under a key says what the contents say. */
    ghost predicate Says(k: string)
      reads this`items, this`contents, this`Repr, Repr
    {
      && k in items && k in contents
      && (items[k].body == null || items[k].body in Repr)
      && contents[k] == Stored(k, if items[k].body == null then [] else items[k].body[..], items[k].contentType,
                               items[k].storedAt)
      && items[k].expiresAt == items[k].storedAt + ttl
    }

    /** The entries are the contents, each in an array of the cache's own. */
    ghost predicate Represents()
      reads this`items, this`contents, this`Repr, Repr
    {
      && ttl > 0 && maxEntries > 0 && "" !in items
      && items.Keys == contents.Keys
      && forall k :: k in items ==> Says(k)
    }

    ghost predicate Valid()
      reads this, Repr
    {
      Represents() && InOrder()
    }

    /** The contents agree with the history; the readings were in order. */
    ghost predicate InOrder()
      reads this`contents, this`history, this`clock
    {
      Agrees(contents, history, ttl, maxEntries, clock)
    }

    /** What holds whatever the order of the clock readings: the size is bounded
        and every entry is the last one set under its key. */
    ghost predicate Consistent()
      reads this`items, this`contents, this`Repr, this`history, Repr
    {
      Represents() && Bounded(contents, history, maxEntries)
    }

    lemma ValidIsConsistent()
      requires Valid()
      ensures Consistent()
    {
      AgreementIsOfTheLast(contents, history, ttl, maxEntries, clock);
    }

    constructor (ttl: int, maxEntries: int)
      ensures Consistent() && Valid() && history == [] && clock == 0 && Repr == {}
      ensures this.ttl == (if ttl <= 0 then DEFAULT_TTL else ttl)
      ensures this.maxEntries == (if maxEntries <= 0 then DEFAULT_MAX_ENTRIES else maxEntries)
    {
      this.ttl := if ttl <= 0 then DEFAULT_TTL else ttl;
      this.maxEntries := if maxEntries <= 0 then DEFAULT_MAX_ENTRIES else maxEntries;
      items, contents := map[], map[];
      history, clock, Repr := [], 0, {};
    }

    /** A get with nothing between its two critical sections. What it returns is
        what was last set, in an array of its own; and while readings of the clock
        are in order, it hits exactly when the history says so. */
    method Get(key: string, now: nat) returns (body: array?<byte>, contentType: string, hit: bool)
      requires Consistent()
      modifies this`items, this`contents, this`clock
      ensures Consistent() && history == old(history) && Repr == old(Repr)
      ensures old(InOrder() && clock <= now) ==>
        InOrder() && clock == now && (hit <==> Hits(history, ttl, maxEntries, now, key))
      ensures hit ==> IsLastSet(key, now, body, contentType)
      ensures body != null ==> fresh(body) && body !in Repr
    {
      var stale;
      body, contentType, hit, stale := Read(key, now);
      AfterLook(key, now, stale);
    }

    /** The rest of an uninterrupted get. */
    method AfterLook(key: string, now: nat, stale: bool)
      requires Consistent()
      modifies this`items, this`contents, this`clock
      ensures Consistent()
      ensures old(InOrder() && clock <= now) ==> InOrder() && clock == now
    {
      if InOrder() && clock <= now {
        AdvanceTo(now);
      }
      if stale {
        DropStale(key, now);
      }
    }

    /** The last thing set under the key, less than the TTL before `now`. */
    ghost predicate IsLastSet(key: string, now: nat, body: array?<byte>, contentType: string)
      reads this`history, body
    {
      var i := LastSet(history, key);
      i >= 0 && Bytes(body) == history[i].bytes && contentType == history[i].contentType && now < history[i].at + ttl
    }

    /** The first critical section, with a clock reading from before it or after
        the last step: it hits only if the history says so at the reading, and
        whenever the history says so at the time of the section. */
    method Read(key: string, now: nat) returns (body: array?<byte>, contentType: string, hit: bool, stale: bool)
      requires Consistent()
      ensures hit ==> IsLastSet(key, now, body, contentType)
      ensures InOrder() && hit ==> Hits(history, ttl, maxEntries, now, key)
      ensures InOrder() && Hits(history, ttl, maxEntries, if clock <= now then now else clock, key) ==> hit
      ensures body != null ==> fresh(body) && body !in Repr
      ensures InOrder() && stale ==> !Hits(history, ttl, maxEntries, now, key)
    {
      body, contentType, hit, stale := Look(key, now);
      if InOrder() {
        HitsIffKept(contents, history, ttl, maxEntries, clock, if clock <= now then now else clock, key);
        assert key in contents ==> KeptRightly(contents[key], history, maxEntries, key);
      }
    }

    /** What the section reads and copies. An entry it finds expired is left for
        the second section. */
    method Look(key: string, now: nat) returns (body: array?<byte>, contentType: string, hit: bool, stale: bool)
      requires Consistent()
      ensures hit <==> key in contents && now < contents[key].at + ttl
      ensures stale <==> key in contents && !hit
      ensures hit ==> IsLastSet(key, now, body, contentType)
      ensures body != null ==> fresh(body) && body !in Repr
    {
      body, contentType, hit, stale := null, "", false, false;
      if key !in items {
        return;
      }
      assert Says(key);
      var item := items[key];
      if !(item.expiresAt > now) {
        stale := true;
        return;
      }
      body := CloneBytes(item.body);
      contentType, hit := item.contentType, true;
    }

    /** The second critical section of a get that read the clock at `now`, after
        any sets of others: it deletes the entry only if it has expired by then,
        so an entry set meanwhile stays, and no later answer changes. */
    method DropStale(key: string, now: nat)
      requires Consistent()
      modifies this`items, this`contents
      ensures Consistent()
      ensures old(InOrder() && now <= clock) ==> InOrder()
      ensures contents ==
        if key in old(contents) && old(contents)[key].at + ttl <= now
        then (map k | k in old(contents) && k != key :: old(contents)[k]) else old(contents)
    {
      assert key in items ==> Says(key);
      if key in items && items[key].expiresAt <= now {
        ghost var before := contents;
        Remove(key);
        BoundedWithout(before, contents, history, maxEntries, key);
        if Agrees(before, history, ttl, maxEntries, clock) && now <= clock {
          HitsIffKept(before, history, ttl, maxEntries, clock, clock, key);
          Fewer(before, contents, history, ttl, maxEntries, clock, clock, key);
        }
      }
    }

    method Remove(key: string)
      requires Represents()
      modifies this`items, this`contents
      ensures Represents()
      ensures contents == (map k | k in old(contents) && k != key :: old(contents)[k])
    {
      items := map k | k in items && k != key :: items[k];
      contents := map k | k in contents && k != key :: contents[k];
      assert forall k :: k in items ==> old(Says(k));
    }

    /** The clock moves on. */
    ghost method AdvanceTo(now: nat)
      requires Valid() && clock <= now
      modifies this`clock
      ensures InOrder() && clock == now
    {
      Fewer(contents, contents, history, ttl, maxEntries, clock, now, "");
      clock := now;
    }

    /** Readings of the clock may be out of order; while they are not, the cache
        stays in agreement with its history. */
    method Set(key: string, body: array?<byte>, contentType: string, now: nat)
      requires Consistent() && key != ""
      modifies this
      ensures Consistent() && |items.Keys| <= maxEntries
      ensures history == old(history) + [Stored(key, old(Bytes(body)), contentType, now)]
      ensures old(InOrder() && clock <= now && AllBefore(history, now)) ==> InOrder() && clock == now
      ensures fresh(Repr - old(Repr)) && (body != null && body !in old(Repr) ==> body !in Repr)
    {
      ghost var e := Stored(key, Bytes(body), contentType, now);
      ghost var before := contents;
      assert LastOnly(before, history);
      Store(key, body, contentType, now);
      Record(e, before);
    }

    /** The history takes in what was just stored. */
    ghost method Record(e: Stored, before: map<string, Stored>)
      requires Represents() && LastOnly(before, history)
      requires contents.Keys <= before[e.key := e].Keys
      requires contents == (map k | k in contents.Keys :: before[e.key := e][k])
      requires EvictedTo(before[e.key := e], ttl, maxEntries, e.at, contents.Keys)
      modifies this`history, this`clock
      ensures Consistent() && history == old(history) + [e] && clock == e.at
      ensures old(Agrees(before, history, ttl, maxEntries, clock) && clock <= e.at && AllBefore(history, e.at)) ==>
        InOrder()
    {
      RecordValues(e, before);
    }

    ghost method RecordValues(e: Stored, before: map<string, Stored>)
      requires ttl > 0 && maxEntries > 0 && LastOnly(before, history)
      requires contents.Keys <= before[e.key := e].Keys
      requires contents == (map k | k in contents.Keys :: before[e.key := e][k])
      requires EvictedTo(before[e.key := e], ttl, maxEntries, e.at, contents.Keys)
      modifies this`history, this`clock
      ensures Bounded(contents, history, maxEntries) && history == old(history) + [e] && clock == e.at
      ensures old(Agrees(before, history, ttl, maxEntries, clock) && clock <= e.at && AllBefore(history, e.at)) ==>
        InOrder()
    {
      LastOnlyAfterSet(before, contents, history, e, contents.Keys);
      if Agrees(before, history, ttl, maxEntries, clock) && clock <= e.at && AllBefore(history, e.at) {
        RecordAgrees(before, contents, history, ttl, maxEntries, clock, e, contents.Keys);
      }
      history, clock := history + [e], e.at;
    }

    /** The assignment, followed by the eviction. */
    method Store(key: string, body: array?<byte>, contentType: string, now: nat)
      requires Represents() && key != ""
      modifies this`items, this`contents, this`Repr
      ensures Represents()
      ensures var whole := old(contents)[key := Stored(key, old(Bytes(body)), contentType, now)];
        && contents.Keys <= whole.Keys && contents == (map k | k in contents.Keys :: whole[k])
        && EvictedTo(whole, ttl, maxEntries, now, contents.Keys)
      ensures |items.Keys| <= maxEntries
      ensures fresh(Repr - old(Repr)) && (body != null && body !in old(Repr) ==> body !in Repr)
    {
      Put(key, body, contentType, now);
      Evict(now);
      assert contents.Keys == items.Keys;
    }

    /** The eviction, with the contents in step. */
    method Evict(now: nat)
      requires Represents()
      modifies this`items, this`contents
      ensures Represents() && items.Keys <= old(contents).Keys
      ensures contents == map k | k in items.Keys :: old(contents)[k]
      ensures EvictedTo(old(contents), ttl, maxEntries, now, items.Keys)
    {
      ghost var before := items;
      assert forall k :: k in items ==> Says(k);
      EvictLocked(now);
      EvictionOfContents(before, contents, ttl, maxEntries, now, Unexpired(before, now), items);
      Follow(before);
    }

    method Put(key: string, body: array?<byte>, contentType: string, now: nat)
      requires Represents() && key != ""
      modifies this`items, this`contents, this`Repr
      ensures Represents()
      ensures contents == old(contents)[key := Stored(key, old(Bytes(body)), contentType, now)]
      ensures fresh(Repr - old(Repr)) && (body != null && body !in old(Repr) ==> body !in Repr)
    {
      var copy := CloneBytes(body);
      ghost var own: set<array<byte>> := if copy == null then {} else {copy};
      Repr := Repr + own;
      contents := contents[key := Stored(key, Bytes(copy), contentType, now)];
      items := items[key := Item(copy, contentType, now + ttl, now)];
      assert forall k :: k in items && k != key ==> old(Says(k));
      assert Says(key);
    }

    /** Drops what has expired, then the oldest entries until the rest fits. */
    method EvictLocked(now: nat)
      requires "" !in items
      modifies this`items
      ensures NewestOf(Unexpired(old(items), now), items, maxEntries)
    {
      items := DropExpired(items, now);
      items := EvictOldest(items, maxEntries);
    }

    /** The contents follow when entries go. */
    ghost method Follow(before: map<string, Item>)
      requires ttl > 0 && maxEntries > 0 && "" !in before
      requires before.Keys == contents.Keys && items.Keys <= before.Keys
      requires forall k :: k in items ==> items[k] == before[k] && Says(k)
      modifies this`contents
      ensures Represents() && contents == map k | k in items.Keys :: old(contents)[k]
    {
      ghost var all := contents;
      contents := map k | k in items.Keys :: all[k];
      assert forall k :: k in items ==> old(Says(k));
    }
  }

  lemma EvictionOfContents(items: map<string, Item>, contents: map<string, Stored>, ttl: nat, maxEntries: nat,
                           now: nat, alive: map<string, Item>, rest: map<string, Item>)
    requires items.Keys == contents.Keys
    requires forall k :: k in items ==>
      items[k].storedAt == contents[k].at && items[k].expiresAt == contents[k].at + ttl
    requires alive == Unexpired(items, now) && NewestOf(alive, rest, maxEntries)
    ensures EvictedTo(contents, ttl, maxEntries, now, rest.Keys)
    ensures rest.Keys <= items.Keys && forall k :: k in rest ==> rest[k] == items[k]
  {
    assert alive.Keys == Alive(contents, ttl, now);
  }

  /** Dropping a key that does not hit keeps the agreement. */
  lemma Fewer(view: map<string, Stored>, t: map<string, Stored>, h: seq<Stored>, ttl: nat, maxEntries: nat,
              clock: nat, now: nat, key: string)
    requires Agrees(view, h, ttl, maxEntries, clock) && clock <= now
    requires t == view || (t == (map k | k in view && k != key :: view[k]) && !Hits(h, ttl, maxEntries, now, key))
    ensures Agrees(t, h, ttl, maxEntries, now)
  {
    SubsetCard(t.Keys, view.Keys);
    forall k | k in t
      ensures KeptRightly(t[k], h, maxEntries, k)
    {
      assert KeptRightly(view[k], h, maxEntries, k);
    }
    forall k | Hits(h, ttl, maxEntries, now, k)
      ensures k in t
    {
      assert Hits(h, ttl, maxEntries, clock, k);
    }
  }

  /** Writing into an array the cache does not own, such as one it returned or
      was given, changes nothing it will answer. */
  method Scribble(cache: ImageProxyCache, a: array<byte>, i: nat, x: byte)
    requires cache.Consistent() && a !in cache.Repr && i < a.Length
    modifies a
    ensures cache.Consistent() && cache.history == old(cache.history)
    ensures old(cache.InOrder()) ==> cache.InOrder()
  {
    a[i] := x;
  }
}
