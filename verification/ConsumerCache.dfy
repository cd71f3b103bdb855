/**
  The consumer repository behind its cache. Two kinds of keys share one cache: a composite of
  channel and consumer id, and the row's own id. The operations are functions on values first;
  the objects that update themselves in place follow.
 */
module ConsumerCache {
  import opened Types

  datatype Consumer = Consumer(id: string, channel: string, consumerId: string, name: string, token: string, callbackUrl: string, pull: bool)

  datatype Key = Key(channel: string, consumerId: string)

  datatype Item = Item(value: Consumer, expiration: Time)

  /** `rows` is the table, where the pair of channel and consumer id is unique; `items` is the cache. */
  datatype Repo = Repo(rows: map<Key, Consumer>, items: map<string, Item>)

  function KeyOf(c: Consumer): Key {
    Key(c.channel, c.consumerId)
  }

  function CacheKey(channel: string, consumerId: string): string {
    channel + ":" + consumerId
  }

  // ---------- the delegate ----------

  function Find(rows: map<Key, Consumer>, channel: string, consumerId: string): Option<Consumer> {
    if Key(channel, consumerId) in rows then Some(rows[Key(channel, consumerId)]) else None
  }

  ghost function FindById(rows: map<Key, Consumer>, id: string): Option<Consumer> {
    if k :| k in rows && rows[k].id == id then Some(rows[k]) else None
  }

  predicate SameFields(a: Consumer, b: Consumer) {
    a.name == b.name && a.token == b.token && a.callbackUrl == b.callbackUrl && a.pull == b.pull
  }

  predicate IsSchemeChar(c: char) {
    'a' <= c <= 'z' || 'A' <= c <= 'Z' || '0' <= c <= '9' || c in "+-."
  }

  /** An absolute URL starts with a scheme and a colon. */
  predicate IsAbsolute(url: string) {
    exists i :: 0 < i < |url| && url[i] == ':' && !('0' <= url[0] <= '9') && url[0] !in "+-." && forall j | 0 <= j < i :: IsSchemeChar(url[j])
  }

  predicate IsInValidState(c: Consumer) {
    c.channel != "" && c.consumerId != "" && c.name != "" && c.token != "" && IsAbsolute(c.callbackUrl)
  }

  /** An insert first gives a consumer without a name its id for a name. */
  function QuickFix(c: Consumer): Consumer {
    if c.name == "" then c.(name := c.consumerId) else c
  }

  /** Updates the row of that channel and consumer id, which keeps its own id, or inserts a new one. */
  function StoreRow(rows: map<Key, Consumer>, c: Consumer, channelExists: bool): (map<Key, Consumer>, Option<Consumer>) {
    if !channelExists then (rows, None)
    else if KeyOf(c) in rows then
      var stored := rows[KeyOf(c)];
      if SameFields(c, stored) then (rows, Some(stored))
      else if !IsInValidState(c) then (rows, None)
      else
        var updated := stored.(name := c.name, token := c.token, callbackUrl := c.callbackUrl, pull := c.pull);
        (rows[KeyOf(c) := updated], Some(updated))
    else
      var fixed := QuickFix(c);
      if !IsInValidState(fixed) || exists k :: k in rows && rows[k].id == c.id then (rows, None)
      else (rows[KeyOf(c) := fixed], Some(fixed))
  }

  // ---------- the cache ----------

  function Lookup(items: map<string, Item>, ttl: nat, key: string, now: Time): Option<Consumer> {
    if key in items && (ttl == 0 || now < items[key].expiration) then Some(items[key].value) else None
  }

  function Remember(items: map<string, Item>, ttl: nat, key: string, c: Consumer, now: Time): map<string, Item> {
    items[key := Item(c, if ttl == 0 then 0 else now + ttl)]
  }

  /** What invalidating a consumer drops: its composite key and its id. */
  function Forget(items: map<string, Item>, c: Consumer): map<string, Item> {
    items - {CacheKey(c.channel, c.consumerId), c.id}
  }

  function Unexpired(items: map<string, Item>, now: Time): map<string, Item> {
    map key | key in items && !(now > items[key].expiration) :: items[key]
  }

  // ---------- the decorator ----------

  datatype Op =
    | Get(channel: string, consumerId: string, now: Time)
    | GetById(id: string, now: Time)
    | Store(consumer: Consumer, channelExists: bool)
    | Delete(consumer: Consumer)
    | Cleanup(now: Time)

  ghost function Cached(s: Repo, ttl: nat, key: string, found: Option<Consumer>, now: Time): (Repo, Option<Consumer>) {
    if Lookup(s.items, ttl, key, now).Some? then (s, Lookup(s.items, ttl, key, now))
    else if found.None? then (s, None)
    else (s.(items := Remember(s.items, ttl, key, found.value, now)), found)
  }

  ghost function Serve(s: Repo, ttl: nat, op: Op): (Repo, Option<Consumer>) {
    match op
    case Get(channel, consumerId, now) => Cached(s, ttl, CacheKey(channel, consumerId), Find(s.rows, channel, consumerId), now)
    case GetById(id, now) => Cached(s, ttl, id, FindById(s.rows, id), now)
    case Store(c, channelExists) =>
      var (rows, stored) := StoreRow(s.rows, c, channelExists);
      (Repo(rows, if stored.Some? then Forget(s.items, stored.value) else s.items), stored)
    case Delete(c) =>
      if KeyOf(c) in s.rows then (Repo(s.rows - {KeyOf(c)}, Forget(s.items, c)), None) else (s, None)
    case Cleanup(now) => (s.(items := if ttl > 0 then Unexpired(s.items, now) else s.items), None)
  }

  /** A read answers what the table would. */
  ghost predicate Agrees(s: Repo, ttl: nat, op: Op) {
    match op
    case Get(channel, consumerId, _) => Serve(s, ttl, op).1 == Find(s.rows, channel, consumerId)
    case GetById(id, _) => Serve(s, ttl, op).1 == FindById(s.rows, id)
    case _ => true
  }

  ghost predicate RunAgrees(s: Repo, ttl: nat, ops: seq<Op>)
    decreases |ops|
  {
    ops == [] || (Agrees(s, ttl, ops[0]) && RunAgrees(Serve(s, ttl, ops[0]).0, ttl, ops[1..]))
  }

  // ---------- when it does ----------

  predicate IsRowId(id: string) {
    ':' !in id
  }

  /** Channels come from `names`; a row id looks like one; a delete carries the id of the row it deletes. */
  ghost predicate Proper(s: Repo, names: set<string>, op: Op) {
    match op
    case Get(channel, _, _) => channel in names
    case GetById(id, _) => IsRowId(id)
    case Store(c, _) => c.channel in names && IsRowId(c.id)
    case Delete(c) => c.channel in names && (KeyOf(c) in s.rows ==> s.rows[KeyOf(c)].id == c.id)
    case Cleanup(_) => true
  }

  ghost predicate ProperRun(s: Repo, ttl: nat, names: set<string>, ops: seq<Op>)
    decreases |ops|
  {
    ops == [] || (Proper(s, names, ops[0]) && ProperRun(Serve(s, ttl, ops[0]).0, ttl, names, ops[1..]))
  }

  /** No channel is another one followed by a colon. */
  predicate Separable(names: set<string>) {
    forall a, b | a in names && b in names :: !(a + ":" <= b)
  }

  ghost predicate KeysAreUnique(names: set<string>) {
    forall a, b, x, y | a in names && b in names && CacheKey(a, x) == CacheKey(b, y) :: a == b && x == y
  }

  lemma PrefixOfKey(a: string, b: string, x: string, y: string)
    requires CacheKey(a, x) == CacheKey(b, y) && |a| < |b|
    ensures a + ":" <= b
  {
    var key := CacheKey(a, x);
    assert key[..|a| + 1] == a + ":" && key[..|b|] == b;
    assert b[..|a| + 1] == key[..|a| + 1];
  }

  lemma SameLengthSameKey(a: string, b: string, x: string, y: string)
    requires CacheKey(a, x) == CacheKey(b, y) && |a| == |b|
    ensures a == b && x == y
  {
    var key := CacheKey(a, x);
    assert key[..|a|] == a && key[..|b|] == b;
    assert key[|a| + 1..] == x && key[|b| + 1..] == y;
  }

  lemma SharedKey(a: string, b: string, y: string)
    requires a + ":" <= b
    ensures CacheKey(b, y) == CacheKey(a, b[|a| + 1..] + ":" + y)
  {
    assert b == a + ":" + b[|a| + 1..];
  }

  /** Composite keys never collide exactly when no channel is another one followed by a colon. */
  lemma KeysAreUniqueIff(names: set<string>)
    ensures KeysAreUnique(names) <==> Separable(names)
  {
    if Separable(names) {
      forall a, b, x, y | a in names && b in names && CacheKey(a, x) == CacheKey(b, y) ensures a == b && x == y {
        if |a| < |b| { PrefixOfKey(a, b, x, y); }
        if |b| < |a| { PrefixOfKey(b, a, y, x); }
        if |a| == |b| { SameLengthSameKey(a, b, x, y); }
      }
    } else {
      var a, b :| a in names && b in names && a + ":" <= b;
      SharedKey(a, b, "");
    }
  }

  // ---------- the invariant ----------

  ghost predicate TableIsSound(rows: map<Key, Consumer>, names: set<string>) {
    && (forall k | k in rows :: KeyOf(rows[k]) == k && k.channel in names && IsRowId(rows[k].id))
    && forall j, k | j in rows && k in rows && rows[j].id == rows[k].id :: j == k
  }

  /** An entry holds a row of the table, under one of that row's two keys. */
  ghost predicate IsCurrent(rows: map<Key, Consumer>, key: string, c: Consumer) {
    && KeyOf(c) in rows && rows[KeyOf(c)] == c
    && (key == CacheKey(c.channel, c.consumerId) || key == c.id)
  }

  ghost predicate Coherent(s: Repo) {
    forall key | key in s.items :: IsCurrent(s.rows, key, s.items[key].value)
  }

  ghost predicate Sound(s: Repo, names: set<string>) {
    TableIsSound(s.rows, names) && Coherent(s)
  }

  lemma CompositeIsNoId(channel: string, consumerId: string, id: string)
    requires IsRowId(id)
    ensures CacheKey(channel, consumerId) != id
  {
    assert CacheKey(channel, consumerId)[|channel|] == ':';
  }

  lemma FoundById(rows: map<Key, Consumer>, names: set<string>, k: Key)
    requires TableIsSound(rows, names) && k in rows
    ensures FindById(rows, rows[k].id) == Some(rows[k])
  {
  }

  lemma GetAgrees(s: Repo, ttl: nat, names: set<string>, channel: string, consumerId: string, now: Time)
    requires Sound(s, names) && KeysAreUnique(names) && channel in names
    ensures Agrees(s, ttl, Get(channel, consumerId, now)) && Sound(Serve(s, ttl, Get(channel, consumerId, now)).0, names)
  {
    var key := CacheKey(channel, consumerId);
    if Lookup(s.items, ttl, key, now).Some? {
      var c := s.items[key].value;
      assert IsCurrent(s.rows, key, c);
      CompositeIsNoId(channel, consumerId, c.id);
      assert Key(channel, consumerId) == KeyOf(c);
    }
  }

  lemma GetByIdAgrees(s: Repo, ttl: nat, names: set<string>, id: string, now: Time)
    requires Sound(s, names) && IsRowId(id)
    ensures Agrees(s, ttl, GetById(id, now)) && Sound(Serve(s, ttl, GetById(id, now)).0, names)
  {
    if Lookup(s.items, ttl, id, now).Some? {
      var c := s.items[id].value;
      assert IsCurrent(s.rows, id, c);
      CompositeIsNoId(c.channel, c.consumerId, id);
      FoundById(s.rows, names, KeyOf(c));
    }
  }

  /** Entries of other rows survive an invalidation; entries of this row do not. */
  lemma ForgetKeepsCoherent(s: Repo, names: set<string>, rows: map<Key, Consumer>, c: Consumer)
    requires Coherent(s) && (forall k | k in s.rows && k != KeyOf(c) :: k in rows && rows[k] == s.rows[k])
    requires KeyOf(c) in s.rows ==> s.rows[KeyOf(c)].id == c.id
    ensures Coherent(Repo(rows, Forget(s.items, c)))
  {
    forall key | key in Forget(s.items, c) ensures IsCurrent(rows, key, s.items[key].value) {
      assert IsCurrent(s.rows, key, s.items[key].value);
    }
  }

  lemma StoreKeepsTable(rows: map<Key, Consumer>, names: set<string>, c: Consumer, channelExists: bool)
    requires TableIsSound(rows, names) && c.channel in names && IsRowId(c.id)
    ensures TableIsSound(StoreRow(rows, c, channelExists).0, names)
  {
  }

  /** What is stored is the row of that key, under the id it had before if there was one, and no other row changes. */
  lemma StoredIsTheRow(rows: map<Key, Consumer>, c: Consumer, channelExists: bool)
    requires forall k | k in rows :: KeyOf(rows[k]) == k
    ensures var (next, stored) := StoreRow(rows, c, channelExists);
            stored.Some? ==>
              && KeyOf(stored.value) == KeyOf(c) && Find(next, c.channel, c.consumerId) == stored
              && (KeyOf(c) in rows ==> rows[KeyOf(c)].id == stored.value.id)
              && forall k | k in rows && k != KeyOf(c) :: k in next && next[k] == rows[k]
    ensures StoreRow(rows, c, channelExists).1 == None ==> StoreRow(rows, c, channelExists).0 == rows
  {
  }

  /**
    A store is accepted if and only if the channel is known and the consumer is that of its row
    already, or is valid; a new one gets its id for a name if it has none, and needs a row id
    that is not taken.
   */
  lemma StoreAcceptsIff(rows: map<Key, Consumer>, c: Consumer, channelExists: bool)
    ensures StoreRow(rows, c, channelExists).1.Some? <==>
              channelExists &&
              if KeyOf(c) in rows then SameFields(c, rows[KeyOf(c)]) || IsInValidState(c)
              else IsInValidState(if c.name == "" then c.(name := c.consumerId) else c) && forall k | k in rows :: rows[k].id != c.id
    ensures StoreRow(rows, c, channelExists).1.Some? ==>
              var row := StoreRow(rows, c, channelExists).1.value;
              && row.token == c.token && row.callbackUrl == c.callbackUrl && row.pull == c.pull
              && row.name == (if c.name == "" && KeyOf(c) !in rows then c.consumerId else c.name) && (KeyOf(c) !in rows ==> row.id == c.id)
  {
  }

  /** A delete takes the row of its key and leaves the others. */
  lemma DeleteTakesTheRow(s: Repo, ttl: nat, c: Consumer)
    ensures var t := Serve(s, ttl, Delete(c)).0;
            KeyOf(c) !in t.rows && forall k | k != KeyOf(c) :: (k in t.rows <==> k in s.rows) && (k in t.rows ==> t.rows[k] == s.rows[k])
  {
  }

  /** What is remembered is found until its time is over, and nothing else changes. */
  lemma RememberedIsFound(items: map<string, Item>, ttl: nat, key: string, c: Consumer, now: Time, other: string, later: Time)
    ensures Lookup(Remember(items, ttl, key, c, now), ttl, other, later)
            == if other != key then Lookup(items, ttl, other, later) else if ttl == 0 || later < now + ttl then Some(c) else None
  {
  }

  /** A read that finds a row leaves it in the cache, so the same read right after it is a hit. */
  lemma ReadIsRemembered(s: Repo, ttl: nat, channel: string, consumerId: string, now: Time)
    ensures var (t, found) := Serve(s, ttl, Get(channel, consumerId, now));
            t.rows == s.rows && Lookup(t.items, ttl, CacheKey(channel, consumerId), now) == found
  {
  }

  /** A cleanup changes no answer of the cache from then on. */
  lemma CleanupIsInvisible(items: map<string, Item>, ttl: nat, now: Time, key: string, later: Time)
    requires ttl > 0 && now <= later
    ensures Lookup(Unexpired(items, now), ttl, key, later) == Lookup(items, ttl, key, later)
  {
  }

  lemma StoreKeepsSound(s: Repo, ttl: nat, names: set<string>, c: Consumer, channelExists: bool)
    requires Sound(s, names) && c.channel in names && IsRowId(c.id)
    ensures Sound(Serve(s, ttl, Store(c, channelExists)).0, names)
  {
    StoreKeepsTable(s.rows, names, c, channelExists);
    StoredIsTheRow(s.rows, c, channelExists);
    var (rows, stored) := StoreRow(s.rows, c, channelExists);
    if stored.Some? { ForgetKeepsCoherent(s, names, rows, stored.value); }
  }

  lemma OpIsSound(s: Repo, ttl: nat, names: set<string>, op: Op)
    requires Sound(s, names) && KeysAreUnique(names) && Proper(s, names, op)
    ensures Agrees(s, ttl, op) && Sound(Serve(s, ttl, op).0, names)
  {
    match op
    case Get(channel, consumerId, now) => GetAgrees(s, ttl, names, channel, consumerId, now);
    case GetById(id, now) => GetByIdAgrees(s, ttl, names, id, now);
    case Store(c, channelExists) => StoreKeepsSound(s, ttl, names, c, channelExists);
    case Delete(c) => if KeyOf(c) in s.rows { ForgetKeepsCoherent(s, names, s.rows - {KeyOf(c)}, c); }
    case Cleanup(_) =>
  }

  lemma {:induction false} ProperRunAgrees(s: Repo, ttl: nat, names: set<string>, ops: seq<Op>)
    requires Sound(s, names) && KeysAreUnique(names) && ProperRun(s, ttl, names, ops)
    ensures RunAgrees(s, ttl, ops)
    decreases |ops|
  {
    if ops != [] {
      OpIsSound(s, ttl, names, ops[0]);
      ProperRunAgrees(Serve(s, ttl, ops[0]).0, ttl, names, ops[1..]);
    }
  }

  // ---------- and when it does not ----------

  const EMPTY := Repo(map[], map[])

  /** Every proper run from the empty repository agrees with the table. */
  ghost predicate EveryRunAgrees(names: set<string>) {
    forall ttl, ops :: ProperRun(EMPTY, ttl, names, ops) ==> RunAgrees(EMPTY, ttl, ops)
  }

  /** A consumer that the repository accepts. */
  function Sample(channel: string): Consumer {
    Consumer.Consumer("id", channel, "c", "c", "token", "https://c", false)
  }

  lemma SampleIsStored(channel: string)
    requires channel != ""
    ensures IsInValidState(Sample(channel))
    ensures Serve(EMPTY, 0, Store(Sample(channel), true)).0 == Repo(map[KeyOf(Sample(channel)) := Sample(channel)], map[])
  {
    var c := Sample(channel);
    assert c.callbackUrl[5] == ':' && forall j | 0 <= j < 5 :: IsSchemeChar(c.callbackUrl[j]);
    assert Forget(map[], c) == map[];
  }

  /** Only a row and an entry for it. */
  function WithEntry(c: Consumer, key: string): Repo {
    Repo(map[KeyOf(c) := c], map[key := Item(c, 0)])
  }

  /** The table with the sample consumer and nothing cached. */
  function Stored(channel: string): Repo {
    Repo(map[KeyOf(Sample(channel)) := Sample(channel)], map[])
  }

  /** A run that stores the sample and reads it goes on from the table with that one entry. */
  lemma AfterTwoCalls(names: set<string>, channel: string, read: Op, key: string, rest: seq<Op>)
    requires channel != "" && Serve(Stored(channel), 0, read).0 == WithEntry(Sample(channel), key) && Agrees(Stored(channel), 0, read)
    ensures RunAgrees(EMPTY, 0, [Store(Sample(channel), true), read] + rest) == RunAgrees(WithEntry(Sample(channel), key), 0, rest)
    ensures channel in names && Proper(Stored(channel), names, read) ==>
              ProperRun(EMPTY, 0, names, [Store(Sample(channel), true), read] + rest) == ProperRun(WithEntry(Sample(channel), key), 0, names, rest)
  {
    SampleIsStored(channel);
    var first := Store(Sample(channel), true);
    var ops := [first, read] + rest;
    assert ops[1..] == [read] + rest && ([read] + rest)[1..] == rest;
    assert RunAgrees(Stored(channel), 0, [read] + rest) == RunAgrees(WithEntry(Sample(channel), key), 0, rest);
  }

  lemma OneCall(names: set<string>, s: Repo, op: Op)
    ensures RunAgrees(s, 0, [op]) == Agrees(s, 0, op) && ProperRun(s, 0, names, [op]) == Proper(s, names, op)
  {
  }

  /** Store a consumer of the longer channel, read it, then read the pair of the shorter channel with the same key. */
  lemma CollidingRead(names: set<string>, a: string, b: string)
    requires a in names && b in names && a + ":" <= b
    ensures var run := [Store(Sample(b), true), Get(b, "c", 0)] + [Get(a, b[|a| + 1..] + ":" + "c", 0)];
            ProperRun(EMPTY, 0, names, run) && !RunAgrees(EMPTY, 0, run)
  {
    var c, x := Sample(b), b[|a| + 1..] + ":" + "c";
    SharedKey(a, b, "c");
    var read, last := Get(b, "c", 0), Get(a, x, 0);
    var s := WithEntry(c, CacheKey(b, "c"));
    AfterTwoCalls(names, b, read, CacheKey(b, "c"), [last]);
    OneCall(names, s, last);
    assert !Agrees(s, 0, last);
  }

  /** Reads through the cache always answer as the table does exactly when no channel is another one followed by a colon. */
  lemma CacheAgreesIffSeparable(names: set<string>)
    ensures EveryRunAgrees(names) <==> Separable(names)
  {
    KeysAreUniqueIff(names);
    if Separable(names) {
      forall ttl, ops | ProperRun(EMPTY, ttl, names, ops) ensures RunAgrees(EMPTY, ttl, ops) {
        ProperRunAgrees(EMPTY, ttl, names, ops);
      }
    } else {
      var a, b :| a in names && b in names && a + ":" <= b;
      CollidingRead(names, a, b);
    }
  }

  /** A delete keeps the cache coherent exactly when it carries the id of the row, or that id is not cached. */
  lemma DeleteKeepsCoherentIff(s: Repo, ttl: nat, names: set<string>, c: Consumer)
    requires Sound(s, names) && KeyOf(c) in s.rows && IsRowId(c.id)
    ensures Coherent(Serve(s, ttl, Delete(c)).0) <==> (c.id == s.rows[KeyOf(c)].id || s.rows[KeyOf(c)].id !in s.items)
  {
    var stored, t := s.rows[KeyOf(c)], Serve(s, ttl, Delete(c)).0;
    CompositeIsNoId(c.channel, c.consumerId, stored.id);
    if c.id != stored.id && stored.id in s.items {
      StaleEntry(s, names, stored);
      assert stored.id in t.items && !IsCurrent(t.rows, stored.id, t.items[stored.id].value);
    } else {
      forall key | key in t.items ensures IsCurrent(t.rows, key, t.items[key].value) {
        assert IsCurrent(s.rows, key, s.items[key].value);
      }
    }
  }

  lemma StaleEntry(s: Repo, names: set<string>, stored: Consumer)
    requires Sound(s, names) && KeyOf(stored) in s.rows && s.rows[KeyOf(stored)] == stored && stored.id in s.items
    ensures s.items[stored.id].value == stored
  {
    var c := s.items[stored.id].value;
    assert IsCurrent(s.rows, stored.id, c);
    CompositeIsNoId(c.channel, c.consumerId, stored.id);
  }

  /** A read by id answers as the table does exactly when the id looks like a row id or is not cached. */
  lemma GetByIdAgreesIff(s: Repo, ttl: nat, names: set<string>, id: string, now: Time)
    requires Sound(s, names)
    ensures Agrees(s, ttl, GetById(id, now)) <==> IsRowId(id) || Lookup(s.items, ttl, id, now) == None
  {
    if IsRowId(id) {
      GetByIdAgrees(s, ttl, names, id, now);
    } else {
      assert FindById(s.rows, id) == None;
    }
  }

  /** A delete that carries another id leaves the row's entry behind: store, read by id, delete, read by id again. */
  lemma StaleAfterDelete(channel: string, id: string)
    requires channel != "" && IsRowId(id) && id != "id"
    ensures !RunAgrees(EMPTY, 0, [Store(Sample(channel), true), GetById("id", 0)] + [Delete(Sample(channel).(id := id)), GetById("id", 0)])
  {
    var c := Sample(channel);
    var read, drop := GetById("id", 0), Delete(c.(id := id));
    FoundById(Stored(channel).rows, {channel}, KeyOf(c));
    AfterTwoCalls({channel}, channel, read, "id", [drop, read]);
    CompositeIsNoId(channel, "c", "id");
    var s, t := WithEntry(c, "id"), Serve(WithEntry(c, "id"), 0, drop).0;
    assert t.rows == map[] && FindById(t.rows, "id") == None && !Agrees(t, 0, read);
    OneCall({channel}, t, read);
    assert [drop, read][1..] == [read] && !RunAgrees(s, 0, [drop, read]);
  }

  /** A read by an id that is another consumer's composite key finds that consumer: store, read, read by the key. */
  lemma FoundByCompositeKey(channel: string)
    requires channel != ""
    ensures !RunAgrees(EMPTY, 0, [Store(Sample(channel), true), Get(channel, "c", 0)] + [GetById(CacheKey(channel, "c"), 0)])
  {
    var key := CacheKey(channel, "c");
    CompositeIsNoId(channel, "c", "id");
    AfterTwoCalls({channel}, channel, Get(channel, "c", 0), key, [GetById(key, 0)]);
    OneCall({channel}, WithEntry(Sample(channel), key), GetById(key, 0));
  }

  // ---------- the objects ----------

  class MemoryCache {
    var items: map<string, Item>
    const ttl: nat

    constructor (ttl: nat)
      ensures items == map[] && this.ttl == ttl
    {
      items, this.ttl := map[], ttl;
    }

    method Get(key: string, now: Time) returns (found: Option<Consumer>)
      ensures found == Lookup(items, ttl, key, now)
    {
      if key in items {
        if ttl == 0 || now < items[key].expiration { return Some(items[key].value); }
      }
      return None;
    }

    method Set(key: string, value: Consumer, now: Time)
      modifies this
      ensures items == Remember(old(items), ttl, key, value, now)
    {
      var expiration := now + ttl;
      if ttl == 0 { expiration := 0; }
      items := items[key := Item(value, expiration)];
    }

    method Delete(key: string)
      modifies this
      ensures items == old(items) - {key}
    {
      items := items - {key};
    }

    /** One pass of the cleanup loop: drops the entries whose time is over. */
    method Cleanup(now: Time)
      modifies this
      ensures items == if ttl > 0 then Unexpired(old(items), now) else old(items)
    {
      if ttl == 0 { return; }
      var kept, left := map[], items.Keys;
      while left != {}
        invariant left <= items.Keys && items == old(items)
        invariant kept == map key | key in items && key !in left && !(now > items[key].expiration) :: items[key]
        decreases |left|
      {
        var key :| key in left;
        if !(now > items[key].expiration) { kept := kept[key := items[key]]; }
        left := left - {key};
      }
      items := kept;
    }
  }

  class CachedConsumerRepository {
    var rows: map<Key, Consumer>
    const cache: MemoryCache

    ghost function State(): Repo
      reads this, cache
    {
      Repo(rows, cache.items)
    }

    ghost predicate Valid()
      reads this
    {
      forall j, k | j in rows && k in rows && rows[j].id == rows[k].id :: j == k
    }

    constructor (ttl: nat)
      ensures State() == EMPTY && fresh(cache) && cache.ttl == ttl && Valid()
    {
      rows := map[];
      cache := new MemoryCache(ttl);
    }

    method Get(channel: string, consumerId: string, now: Time) returns (found: Option<Consumer>)
      modifies cache
      ensures (State(), found) == Serve(old(State()), cache.ttl, Op.Get(channel, consumerId, now))
    {
      var key := channel + ":" + consumerId;
      found := cache.Get(key, now);
      if found.Some? { return; }
      found := Find(rows, channel, consumerId);
      if found.Some? { cache.Set(key, found.value, now); }
    }

    method FindRow(id: string) returns (found: Option<Consumer>)
      requires Valid()
      ensures found == FindById(rows, id)
    {
      var left := rows.Keys;
      while left != {}
        invariant left <= rows.Keys && forall k | k in rows && k !in left :: rows[k].id != id
        decreases |left|
      {
        var k :| k in left;
        if rows[k].id == id { return Some(rows[k]); }
        left := left - {k};
      }
      return None;
    }

    method GetById(id: string, now: Time) returns (found: Option<Consumer>)
      requires Valid()
      modifies cache
      ensures (State(), found) == Serve(old(State()), cache.ttl, Op.GetById(id, now))
    {
      found := cache.Get(id, now);
      if found.Some? { return; }
      found := FindRow(id);
      if found.Some? { cache.Set(id, found.value, now); }
    }

    method Invalidate(c: Consumer)
      modifies cache
      ensures cache.items == Forget(old(cache.items), c)
    {
      cache.Delete(c.channel + ":" + c.consumerId);
      cache.Delete(c.id);
    }

    method Store(c: Consumer, channelExists: bool) returns (stored: Option<Consumer>)
      requires Valid()
      modifies this, cache
      ensures Valid() && (State(), stored) == Serve(old(State()), cache.ttl, Op.Store(c, channelExists))
    {
      if !channelExists { return None; }
      var current := Find(rows, c.channel, c.consumerId);
      if current.None? {
        var fixed := QuickFix(c);
        var taken := FindRow(c.id);
        if !IsInValidState(fixed) || taken.Some? { return None; }
        rows, stored := rows[KeyOf(c) := fixed], Some(fixed);
      } else {
        stored := current;
        if !SameFields(c, current.value) {
          if !IsInValidState(c) { return None; }
          var updated := current.value.(name := c.name, token := c.token, callbackUrl := c.callbackUrl, pull := c.pull);
          rows, stored := rows[KeyOf(c) := updated], Some(updated);
        }
      }
      Invalidate(stored.value);
    }

    method Delete(c: Consumer) returns (deleted: bool)
      requires Valid()
      modifies this, cache
      ensures Valid() && State() == Serve(old(State()), cache.ttl, Op.Delete(c)).0 && deleted == (KeyOf(c) in old(rows))
    {
      deleted := KeyOf(c) in rows;
      if deleted {
        rows := rows - {KeyOf(c)};
        Invalidate(c);
      }
    }
  }
}
