/** Values shared by every component: bytes, node identifiers, hashes and node records. */
module NodeTypes {

  type byte = bv8

  /** The byte with the value `n`. */
  function ToByte(n: int): (b: byte)
    requires 0 <= n < 256
    ensures b as int == n
    decreases n
  {
    if n == 0 then 0 else ToByte(n - 1) + 1
  }

  const NODE_ID_LEN := 64
  const HASH_LEN := 32

  /** The capacity of a bucket of the table, and the size of a lookup result. */
  const BUCKET_SIZE := 16

  /** A node identifier: the 64 bytes of an encoded public key. */
  type NodeId = b: seq<byte> | |b| == NODE_ID_LEN witness seq(NODE_ID_LEN, _ => 0)

  /** The 32-byte SHA-256 digest that places a node in the XOR space. */
  type Hash = b: seq<byte> | |b| == HASH_LEN witness seq(HASH_LEN, _ => 0)

  /** A known node. `hash` is the digest of `id`; components that rely on this say so. */
  datatype Node = Node(ip: seq<byte>, tcp: nat, udp: nat, id: NodeId, hash: Hash)

  ghost predicate DistinctIds(ns: seq<Node>) {
    forall i, j :: 0 <= i < j < |ns| ==> ns[i].id != ns[j].id
  }

  datatype Option<+T> = None | Some(value: T)

  function Min(a: int, b: int): int {
    if a < b then a else b
  }

  function Repeat(x: int, n: nat): (r: seq<int>)
    ensures |r| == n && forall i :: 0 <= i < n ==> r[i] == x
  {
    seq(n, _ => x)
  }
}
