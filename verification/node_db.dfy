/** The node store of discover/nodedb.go over an abstract key-value map. Iterators walk a snapshot of the
    keys, in any order, while entries are being deleted. */
module NodeDb {
  import opened NodeTypes

  type Key = seq<byte>

  datatype Value = Record(node: Node) | Number(n: int)

  type Store = map<Key, Value>

  function NilId(): NodeId {
    seq(NODE_ID_LEN, _ => 0)
  }

  /** "n:" */
  const PREFIX: Key := [0x6e, 0x3a]
  /** ":discover" */
  const ROOT: Key := [0x3a, 0x64, 0x69, 0x73, 0x63, 0x6f, 0x76, 0x65, 0x72]
  /** ":discover:lastpong" */
  const LAST_PONG: Key := ROOT + [0x3a, 0x6c, 0x61, 0x73, 0x74, 0x70, 0x6f, 0x6e, 0x67]

  const SECOND := 1_000_000_000
  /** A day, in nanoseconds. */
  const NODE_EXPIRATION := 24 * 3600 * SECOND

  function MakeKey(id: NodeId, field: Key): Key {
    if id == NilId() then field else PREFIX + (id + field)
  }

  predicate HasPrefix(k: Key) {
    PREFIX <= k
  }

  /** splitKey; a node key too short for an identifier would crash it. */
  function SplitKey(k: Key): Option<(NodeId, Key)> {
    if !HasPrefix(k) then Some((NilId(), k))
    else if |k| < 2 + NODE_ID_LEN then None
    else Some((k[2..2 + NODE_ID_LEN], k[2 + NODE_ID_LEN..]))
  }

  predicate Splits(k: Key) {
    SplitKey(k).Some?
  }

  // ---------- The key space ----------

  /** splitKey inverts makeKey, for the nil identifier exactly if the field does not look like a node key. */
  lemma SplitInvertsMake(id: NodeId, field: Key)
    ensures SplitKey(MakeKey(id, field)) == Some((id, field)) <==> id != NilId() || !HasPrefix(field)
  {
    var k := MakeKey(id, field);
    if id != NilId() {
      assert k[2..2 + NODE_ID_LEN] == id && k[2 + NODE_ID_LEN..] == field;
      assert k[..2] == PREFIX;
    } else if HasPrefix(field) && Splits(field) {
      assert |SplitKey(field).value.1| < |field|;
    }
  }

  /** makeKey inverts splitKey on node keys. */
  lemma MakeInvertsSplit(k: Key)
    requires HasPrefix(k) && Splits(k) && SplitKey(k).value.0 != NilId()
    ensures MakeKey(SplitKey(k).value.0, SplitKey(k).value.1) == k
  {
    assert k == PREFIX + (k[2..2 + NODE_ID_LEN] + k[2 + NODE_ID_LEN..]);
  }

  /** Keys of non-nil identifiers never collide. */
  lemma KeysDistinct(a: NodeId, f: Key, b: NodeId, g: Key)
    requires a != NilId() && b != NilId() && MakeKey(a, f) == MakeKey(b, g)
    ensures a == b && f == g
  {
    SplitInvertsMake(a, f);
    SplitInvertsMake(b, g);
  }

  /** `k` is a node key of `id`. */
  predicate KeyOf(k: Key, id: NodeId) {
    HasPrefix(k) && Splits(k) && SplitKey(k).value.0 == id
  }

  /** The node keys of a non-nil identifier are exactly those makeKey builds for it. */
  lemma KeyOfIsMade(k: Key, id: NodeId)
    requires id != NilId()
    ensures KeyOf(k, id) <==> exists f: Key :: MakeKey(id, f) == k
  {
    if KeyOf(k, id) {
      MakeInvertsSplit(k);
    }
    if f: Key :| MakeKey(id, f) == k {
      SplitInvertsMake(id, f);
      assert k[..2] == PREFIX;
    }
  }

  // ---------- Deleting and expiring ----------

  /** The store without the node keys of the given identifiers. */
  ghost function WithoutIds(s: Store, ids: set<NodeId>): Store {
    map k | k in s && !(HasPrefix(k) && Splits(k) && SplitKey(k).value.0 in ids) :: s[k]
  }

  function LastPong(s: Store, id: NodeId): int {
    var k := MakeKey(id, LAST_PONG);
    if k in s && s[k].Number? then s[k].n * SECOND else 0
  }

  /** The record at key `k` is due: it is our own, or its last pong is not after the threshold. */
  ghost predicate Due(s: Store, self: NodeId, threshold: int, k: Key) {
    && k in s && Splits(k) && SplitKey(k).value.1 == ROOT
    && (SplitKey(k).value.0 == self || LastPong(s, SplitKey(k).value.0) <= threshold)
  }

  ghost function DueIds(s: Store, self: NodeId, threshold: int): set<NodeId> {
    set k | k in s && Due(s, self, threshold, k) :: SplitKey(k).value.0
  }

  lemma {:induction false} DeleteMore(s: Store, ids: set<NodeId>, id: NodeId)
    ensures WithoutIds(WithoutIds(s, ids), {id}) == WithoutIds(s, ids + {id})
  {
  }

  /** Deleting other identifiers leaves an identifier's last pong alone. */
  lemma PongKept(s: Store, ids: set<NodeId>, id: NodeId)
    requires id !in ids
    ensures LastPong(WithoutIds(s, ids), id) == LastPong(s, id)
  {
    var k := MakeKey(id, LAST_PONG);
    if id != NilId() {
      SplitInvertsMake(id, LAST_PONG);
    } else {
      assert LAST_PONG[0] != PREFIX[0];
      assert !HasPrefix(LAST_PONG);
    }
  }

  ghost predicate KeysSplit(s: Store) {
    forall k :: k in s ==> Splits(k)
  }

  /** The node recorded under `id`. */
  function NodeAt(s: Store, id: NodeId): Option<Node> {
    var k := MakeKey(id, ROOT);
    if k in s && s[k].Record? then Some(s[k].node) else None
  }

  /** `k` is a discovery record of another node that can be loaded, here as `n`. */
  predicate IsSeed(s: Store, self: NodeId, k: Key, n: Node) {
    Splits(k) && SplitKey(k).value.1 == ROOT && SplitKey(k).value.0 != self && NodeAt(s, SplitKey(k).value.0) == Some(n)
  }

  lemma RecordKept(s: Store, ids: set<NodeId>, id: NodeId)
    requires id !in ids
    ensures NodeAt(WithoutIds(s, ids), id) == NodeAt(s, id)
  {
    if id != NilId() {
      SplitInvertsMake(id, ROOT);
    } else {
      assert ROOT[0] != PREFIX[0];
      assert !HasPrefix(ROOT);
    }
  }

  /** Deleting our own keys again changes nothing. */
  lemma DeleteSelf(all: Store, s: Store, self: NodeId)
    requires KeysSplit(s) && (s == all || s == WithoutIds(all, {self}))
    ensures WithoutIds(s, {self}) == WithoutIds(all, {self}) && KeysSplit(WithoutIds(s, {self}))
  {
  }

  // ---------- The same, key by key ----------

  /** The keys of a non-nil identifier, by makeKey: deleting identifiers removes exactly theirs. */
  lemma DeletedExactly(s: Store, ids: set<NodeId>, id: NodeId, field: Key)
    requires id != NilId()
    ensures var k := MakeKey(id, field);
            && (k in WithoutIds(s, ids) <==> k in s && id !in ids)
            && (k in WithoutIds(s, ids) ==> WithoutIds(s, ids)[k] == s[k])
  {
    SplitInvertsMake(id, field);
    assert MakeKey(id, field)[..2] == PREFIX;
  }

  /** The pong stored for `id` is at least a day old at `now`, or there is none and so it counts as of 1970. */
  predicate PongStale(s: Store, id: NodeId, now: int) {
    var k := MakeKey(id, LAST_PONG);
    if k in s && s[k].Number? then now - s[k].n * 1_000_000_000 >= 86_400_000_000_000 else now >= 86_400_000_000_000
  }

  lemma DueExactly(s: Store, self: NodeId, now: int, id: NodeId)
    requires id != NilId()
    ensures id in DueIds(s, self, now - NODE_EXPIRATION) <==> MakeKey(id, ROOT) in s && (id == self || PongStale(s, id, now))
  {
    var threshold, k := now - NODE_EXPIRATION, MakeKey(id, ROOT);
    SplitInvertsMake(id, ROOT);
    assert LastPong(s, id) <= threshold <==> PongStale(s, id, now);
    if id in DueIds(s, self, threshold) {
      var j :| j in s && Due(s, self, threshold, j) && SplitKey(j).value.0 == id;
      MakeInvertsSplit(j);
    }
    if k in s && (id == self || PongStale(s, id, now)) {
      assert Due(s, self, threshold, k);
    }
  }

  /** What expireNodes removes of a store: all keys of the nodes that have a record and are ourselves or
      have not been heard of for a day; and no others. */
  lemma ExpiredExactly(s: Store, self: NodeId, now: int, id: NodeId, field: Key)
    requires id != NilId()
    ensures var k, r := MakeKey(id, field), WithoutIds(s, DueIds(s, self, now - NODE_EXPIRATION));
            k in r <==> k in s && !(MakeKey(id, ROOT) in s && (id == self || PongStale(s, id, now)))
  {
    hide DueIds, WithoutIds, PongStale;
    DueExactly(s, self, now, id);
    DeletedExactly(s, DueIds(s, self, now - NODE_EXPIRATION), id, field);
  }

  /** Keys that are no node's stay. */
  lemma OtherKeysKept(s: Store, ids: set<NodeId>, k: Key)
    requires !HasPrefix(k)
    ensures k in WithoutIds(s, ids) <==> k in s
  {
  }

  /** A node whose pong was stored at time `t` outlives an expiry at `now` exactly if less than a day lies
      between, counted from the whole second. */
  lemma PongKeepsNode(s: Store, self: NodeId, id: NodeId, t: int, now: int)
    requires id != NilId() && id != self && MakeKey(id, ROOT) in s
    ensures var p := s[MakeKey(id, LAST_PONG) := Number(t / SECOND)];
            MakeKey(id, ROOT) in WithoutIds(p, DueIds(p, self, now - NODE_EXPIRATION)) <==> now - (t - t % SECOND) < 86_400_000_000_000
  {
    hide DueIds, WithoutIds;
    var p := s[MakeKey(id, LAST_PONG) := Number(t / SECOND)];
    ExpiredExactly(p, self, now, id, ROOT);
    assert t - t % SECOND == t / SECOND * SECOND;
  }

  /** Which records can be seeds: those of other nodes, as they were stored. */
  lemma SeedExactly(s: Store, self: NodeId, id: NodeId, n: Node)
    requires id != NilId()
    ensures MakeKey(id, ROOT) in s && IsSeed(s, self, MakeKey(id, ROOT), n) <==>
            MakeKey(id, ROOT) in s && id != self && s[MakeKey(id, ROOT)] == Record(n)
  {
    SplitInvertsMake(id, ROOT);
  }

  class NodeStore {
    const self: NodeId
    var storage: Store
    var seeder: Option<set<Key>>

    constructor (self: NodeId)
      ensures this.self == self && storage == map[] && seeder == None
    {
      this.self, storage, seeder := self, map[], None;
    }

    /** updateNode */
    method UpdateNode(node: Node)
      modifies this`storage
      ensures storage == old(storage)[MakeKey(node.id, ROOT) := Record(node)]
    {
      storage := storage[MakeKey(node.id, ROOT) := Record(node)];
    }

    /** updateLastPong stores whole seconds. */
    method UpdateLastPong(id: NodeId, t: int)
      modifies this`storage
      ensures storage == old(storage)[MakeKey(id, LAST_PONG) := Number(t / SECOND)]
    {
      storage := storage[MakeKey(id, LAST_PONG) := Number(t / SECOND)];
    }

    /** deleteNode: removes exactly the node keys of `id`, whatever the order in which the snapshot is
        walked. */
    method DeleteNode(id: NodeId)
      requires KeysSplit(storage)
      modifies this`storage
      ensures storage == WithoutIds(old(storage), {id})
    {
      hide SplitKey, HasPrefix;
      var todo := storage.Keys;
      while todo != {}
        invariant todo <= old(storage).Keys
        invariant forall k :: k in storage <==> k in old(storage) && (k in todo || !KeyOf(k, id))
        invariant forall k :: k in storage ==> storage[k] == old(storage)[k]
        decreases |todo|
      {
        var k :| k in todo;
        todo := todo - {k};
        if !HasPrefix(k) || SplitKey(k).value.0 != id {
          continue;
        }
        storage := storage - {k};
      }
    }

    /** expireNodes: removes exactly the keys of recorded nodes that are ourselves or were not heard of for
        a day, and leaves every other key untouched, whatever the iteration orders. */
    method ExpireNodes(now: int)
      requires KeysSplit(storage)
      modifies this`storage
      ensures storage == WithoutIds(old(storage), DueIds(old(storage), self, now - NODE_EXPIRATION))
    {
      var threshold := now - NODE_EXPIRATION;
      var todo := storage.Keys;
      ghost var all := storage;
      ghost var gone: set<NodeId> := {};
      assert storage == WithoutIds(all, {});
      while todo != {}
        invariant todo <= all.Keys && KeysSplit(storage)
        invariant storage == WithoutIds(all, gone)
        invariant gone <= DueIds(all, self, threshold)
        invariant forall k :: k in all && k !in todo && Due(all, self, threshold, k) ==> SplitKey(k).value.0 in gone
        decreases |todo|
      {
        var k :| k in todo;
        todo := todo - {k};
        var (id, field) := SplitKey(k).value;
        if field != ROOT {
          continue;
        }
        if id != self {
          var seen := LastPong(storage, id);
          if id !in gone {
            PongKept(all, gone, id);
          }
          if seen > threshold {
            continue;
          }
        }
        DeleteMore(all, gone, id);
        DeleteNode(id);
        gone := gone + {id};
      }
      assert gone == DueIds(all, self, threshold);
    }

    /** querySeeds: up to `n` recorded nodes other than ourselves, each from a key the iterator had not
        visited, which it will not visit again, and none is passed over; our own record is dropped on
        sight. Fewer than `n` come back only when the iterator is used up, and an empty result restarts
        it. */
    method QuerySeeds(n: nat) returns (nodes: seq<Node>, ghost keys: seq<Key>)
      requires KeysSplit(storage) && (seeder.Some? ==> forall k :: k in seeder.value ==> Splits(k))
      modifies this
      ensures storage == old(storage) || storage == WithoutIds(old(storage), {self})
      ensures |nodes| == |keys| <= n
      ensures var pool := if old(seeder).Some? then old(seeder).value else old(storage).Keys;
              && (forall i :: 0 <= i < |keys| ==> keys[i] in pool && IsSeed(old(storage), self, keys[i], nodes[i]))
              && (nodes == [] <==> seeder == None)
              && (nodes != [] ==> seeder.value <= pool && forall i :: 0 <= i < |keys| ==> keys[i] !in seeder.value)
              && (0 < |nodes| < n ==> seeder.value == {})
              && (forall k, seed :: k in pool && IsSeed(old(storage), self, k, seed) && n > 0 ==>
                    k in keys || (seeder.Some? && k in seeder.value))
      ensures forall i, j :: 0 <= i < j < |keys| ==> keys[i] != keys[j]
    {
      var pool := if seeder.Some? then seeder.value else storage.Keys;
      ghost var all, start := storage, pool;
      nodes, keys := [], [];
      hide WithoutIds, MakeKey, NodeAt, SplitKey, HasPrefix;
      while |nodes| < n && pool != {}
        invariant KeysSplit(storage) && (storage == all || storage == WithoutIds(all, {self}))
        invariant pool <= start && |nodes| == |keys| <= n
        invariant forall i :: 0 <= i < |keys| ==> keys[i] in start && keys[i] !in pool && IsSeed(all, self, keys[i], nodes[i])
        invariant forall i, j :: 0 <= i < j < |keys| ==> keys[i] != keys[j]
        invariant forall k, seed :: k in start && k !in pool && IsSeed(all, self, k, seed) ==> k in keys
        decreases |pool|
      {
        var k :| k in pool;
        pool := pool - {k};
        var (id, field) := SplitKey(k).value;
        if field != ROOT {
          continue;
        }
        if id == self {
          DeleteSelf(all, storage, self);
          DeleteNode(id);
          continue;
        }
        RecordKept(all, {self}, id);
        var node := NodeAt(storage, id);
        if node.Some? {
          nodes, keys := nodes + [node.value], keys + [k];
        }
      }
      seeder := if |nodes| == 0 then None else Some(pool);
    }
  }
}
