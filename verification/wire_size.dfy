/** Which discovery packets leave: encodePacket of discover/udp.go refuses every body of 256 bytes or
    more. Bodies are JSON; an identifier is an array of 64 numbers there, so the lengths add up. */
module WireSize {
  import opened NodeTypes

  /** The decimal digits of `n`. */
  function Decimal(n: nat): (d: nat)
    ensures d >= 1
  {
    if n < 10 then 1 else 1 + Decimal(n / 10)
  }

  /** Numbers with commas between them. */
  function Numbers(bs: seq<byte>): nat {
    if bs == [] then 0
    else Numbers(bs[..|bs| - 1]) + Decimal(bs[|bs| - 1] as nat) + if |bs| > 1 then 1 else 0
  }

  /** [n,n,...] */
  function IdText(id: NodeId): nat {
    2 + Numbers(id)
  }

  /** The length of an address as text; none if it has no text, which makes encoding fail. */
  type IpText = seq<byte> -> Option<nat>

  /** {"IP":"","UDP":,"TCP":,"ID":} */
  function NodeText(ip: nat, n: Node): nat {
    29 + ip + Decimal(n.udp) + Decimal(n.tcp) + IdText(n.id)
  }

  /** Nodes with commas between them. */
  function NodesText(ip: IpText, ns: seq<Node>): Option<nat> {
    if ns == [] then Some(0)
    else
      var front, last := NodesText(ip, ns[..|ns| - 1]), ip(ns[|ns| - 1].ip);
      if front.None? || last.None? then None
      else Some(front.value + NodeText(last.value, ns[|ns| - 1]) + if |ns| > 1 then 1 else 0)
  }

  /** {"Nodes":[],"Expiration":} */
  function NeighborsText(ip: IpText, ns: seq<Node>, expiration: nat): Option<nat> {
    match NodesText(ip, ns)
    case None => None
    case Some(text) => Some(26 + text + Decimal(expiration))
  }

  /** {"Target":,"Expiration":} */
  function FindnodeText(target: NodeId, expiration: nat): nat {
    25 + IdText(target) + Decimal(expiration)
  }

  /** {"IP":"","UDP":,"TCP":} */
  function EndpointText(ip: nat, udp: nat, tcp: nat): nat {
    23 + ip + Decimal(udp) + Decimal(tcp)
  }

  /** {"Version":4,"From":,"To":,"Expiration":} */
  function PingText(sender: nat, receiver: nat, expiration: nat): nat {
    41 + sender + receiver + Decimal(expiration)
  }

  /** {"To":,"Expiration":} */
  function PongText(receiver: nat, expiration: nat): nat {
    21 + receiver + Decimal(expiration)
  }

  /** encodePacket accepts the body: its length fits one byte. */
  predicate Leaves(text: Option<nat>) {
    text.Some? && text.value < 256
  }

  // ---------- Bounds ----------

  lemma DecimalOfByte(b: byte)
    ensures 1 <= Decimal(b as nat) <= 3
    ensures b as nat >= 100 ==> Decimal(b as nat) == 3
    ensures b as nat < 10 ==> Decimal(b as nat) == 1
    ensures 10 <= b as nat < 100 ==> Decimal(b as nat) == 2
  {
    assert Decimal(b as nat / 10) == if b as nat / 10 < 10 then 1 else 1 + Decimal(b as nat / 10 / 10);
  }

  lemma {:induction false} NumbersBounds(bs: seq<byte>)
    ensures bs != [] ==> 2 * |bs| - 1 <= Numbers(bs) <= 4 * |bs| - 1
    ensures bs != [] && (forall i :: 0 <= i < |bs| ==> bs[i] as nat >= 100) ==> Numbers(bs) == 4 * |bs| - 1
    ensures bs != [] && (forall i :: 0 <= i < |bs| ==> bs[i] as nat < 10) ==> Numbers(bs) == 2 * |bs| - 1
  {
    if bs != [] {
      NumbersBounds(bs[..|bs| - 1]);
      DecimalOfByte(bs[|bs| - 1]);
    }
  }

  lemma {:induction false} NodesTextBound(ip: IpText, ns: seq<Node>)
    ensures NodesText(ip, ns).Some? ==> NodesText(ip, ns).value >= 160 * |ns|
  {
    if ns != [] {
      NodesTextBound(ip, ns[..|ns| - 1]);
      NumbersBounds(ns[|ns| - 1].id);
    }
  }

  /** A neighbors packet leaves exactly if it lists at most one node, and that node's text and the
      expiration fit. */
  lemma NeighborsLeaveExactly(ip: IpText, ns: seq<Node>, expiration: nat)
    requires ns != []
    ensures Leaves(NeighborsText(ip, ns, expiration)) <==>
            |ns| == 1 && ip(ns[0].ip).Some? && NodeText(ip(ns[0].ip).value, ns[0]) + Decimal(expiration) < 230
  {
    NodesTextBound(ip, ns);
    if |ns| == 1 {
      assert ns[..0] == [];
      assert NodesText(ip, []) == Some(0);
    }
  }

  /** How many bytes are at least `low`. */
  ghost function AtLeast(bs: seq<byte>, low: nat): nat {
    |set i | 0 <= i < |bs| && bs[i] as nat >= low|
  }

  lemma AtLeastStep(bs: seq<byte>, low: nat)
    requires bs != []
    ensures AtLeast(bs, low) == AtLeast(bs[..|bs| - 1], low) + if bs[|bs| - 1] as nat >= low then 1 else 0
  {
    var m := |bs| - 1;
    var all := set i | 0 <= i < |bs| && bs[i] as nat >= low;
    var front := set i | 0 <= i < m && bs[..m][i] as nat >= low;
    assert all == if bs[m] as nat >= low then front + {m} else front;
  }

  /** An array of bytes takes a digit and a comma for each, and one more for each second and third digit. */
  lemma {:induction false} NumbersCount(bs: seq<byte>)
    requires bs != []
    ensures Numbers(bs) == 2 * |bs| - 1 + AtLeast(bs, 10) + AtLeast(bs, 100)
  {
    hide AtLeast;
    var m := |bs| - 1;
    AtLeastStep(bs, 10);
    AtLeastStep(bs, 100);
    DecimalOfByte(bs[m]);
    if m > 0 {
      NumbersCount(bs[..m]);
    } else {
      NoneAtLeast(10);
      NoneAtLeast(100);
      assert bs[..0] == [];
    }
  }

  lemma NoneAtLeast(low: nat)
    ensures AtLeast([], low) == 0
  {
  }

  /** A findnode request leaves exactly if few enough bytes of its target need a second or third digit. */
  lemma FindnodeLeavesExactly(target: NodeId, expiration: nat)
    ensures Leaves(Some(FindnodeText(target, expiration))) <==>
            AtLeast(target, 10) + AtLeast(target, 100) + Decimal(expiration) <= 101
    ensures (forall i :: 0 <= i < NODE_ID_LEN ==> target[i] as nat >= 100) ==> !Leaves(Some(FindnodeText(target, expiration)))
    ensures (forall i :: 0 <= i < NODE_ID_LEN ==> target[i] as nat < 10) && Decimal(expiration) <= 20 ==>
              Leaves(Some(FindnodeText(target, expiration)))
  {
    NumbersBounds(target);
    NumbersCount(target);
  }

  /** Pings and pongs always leave: ports are 16 bits, expirations 64, and no address text exceeds 45. */
  lemma PingsLeave(ip: nat, udp: nat, tcp: nat, ip': nat, udp': nat, tcp': nat, expiration: nat)
    requires ip <= 45 && ip' <= 45 && Decimal(expiration) <= 20
    requires udp < 0x1_0000 && tcp < 0x1_0000 && udp' < 0x1_0000 && tcp' < 0x1_0000
    ensures Leaves(Some(PingText(EndpointText(ip, udp, tcp), EndpointText(ip', udp', tcp'), expiration)))
    ensures Leaves(Some(PongText(EndpointText(ip, udp, tcp), expiration)))
  {
    PortDecimal(udp);
    PortDecimal(tcp);
    PortDecimal(udp');
    PortDecimal(tcp');
  }

  lemma PortDecimal(p: nat)
    requires p < 0x1_0000
    ensures Decimal(p) <= 5
  {
    var a := p / 10;
    var b := a / 10;
    var c := b / 10;
    assert Decimal(c) <= 1 + Decimal(c / 10) && c / 10 < 10;
    assert Decimal(b) <= 1 + Decimal(c) && Decimal(a) <= 1 + Decimal(b);
  }

  // ---------- The texts themselves ----------

  function DigitText(d: nat): string
    requires d < 10
  {
    ["0123456789"[d]]
  }

  function DecimalText(n: nat): string {
    if n < 10 then DigitText(n) else DecimalText(n / 10) + DigitText(n % 10)
  }

  function NumbersText(bs: seq<byte>): string {
    if bs == [] then ""
    else NumbersText(bs[..|bs| - 1]) + (if |bs| > 1 then "," else "") + DecimalText(bs[|bs| - 1] as nat)
  }

  function IdJson(id: NodeId): string {
    "[" + NumbersText(id) + "]"
  }

  function EndpointJson(ip: string, udp: nat, tcp: nat): string {
    "{\"IP\":\"" + ip + "\",\"UDP\":" + DecimalText(udp) + ",\"TCP\":" + DecimalText(tcp) + "}"
  }

  function NodeJson(ip: string, n: Node): string {
    "{\"IP\":\"" + ip + "\",\"UDP\":" + DecimalText(n.udp) + ",\"TCP\":" + DecimalText(n.tcp) + ",\"ID\":" + IdJson(n.id) + "}"
  }

  function PingJson(sender: string, receiver: string, expiration: nat): string {
    "{\"Version\":4,\"From\":" + sender + ",\"To\":" + receiver + ",\"Expiration\":" + DecimalText(expiration) + "}"
  }

  function PongJson(receiver: string, expiration: nat): string {
    "{\"To\":" + receiver + ",\"Expiration\":" + DecimalText(expiration) + "}"
  }

  function FindnodeJson(target: NodeId, expiration: nat): string {
    "{\"Target\":" + IdJson(target) + ",\"Expiration\":" + DecimalText(expiration) + "}"
  }

  function NodesJson(ip: seq<byte> -> string, ns: seq<Node>): string {
    if ns == [] then ""
    else NodesJson(ip, ns[..|ns| - 1]) + (if |ns| > 1 then "," else "") + NodeJson(ip(ns[|ns| - 1].ip), ns[|ns| - 1])
  }

  function NeighborsJson(ip: seq<byte> -> string, ns: seq<Node>, expiration: nat): string {
    "{\"Nodes\":[" + NodesJson(ip, ns) + "],\"Expiration\":" + DecimalText(expiration) + "}"
  }

  lemma {:induction false} DecimalIs(n: nat)
    ensures |DecimalText(n)| == Decimal(n)
  {
    if n >= 10 {
      DecimalIs(n / 10);
    }
  }

  lemma {:induction false} NumbersIs(bs: seq<byte>)
    ensures |NumbersText(bs)| == Numbers(bs)
  {
    if bs != [] {
      NumbersIs(bs[..|bs| - 1]);
      DecimalIs(bs[|bs| - 1] as nat);
    }
  }

  lemma NodeIs(ip: string, n: Node)
    ensures |NodeJson(ip, n)| == NodeText(|ip|, n)
  {
    hide DecimalText, NumbersText, Decimal, Numbers;
    DecimalIs(n.udp);
    DecimalIs(n.tcp);
    NumbersIs(n.id);
  }

  /** The lengths above are those of the texts. */
  lemma PacketsAre(ip: string, udp: nat, tcp: nat, sender: string, receiver: string, target: NodeId, expiration: nat)
    ensures |EndpointJson(ip, udp, tcp)| == EndpointText(|ip|, udp, tcp)
    ensures |PingJson(sender, receiver, expiration)| == PingText(|sender|, |receiver|, expiration)
    ensures |PongJson(receiver, expiration)| == PongText(|receiver|, expiration)
    ensures |FindnodeJson(target, expiration)| == FindnodeText(target, expiration)
  {
    hide DecimalText, NumbersText, Decimal, Numbers;
    DecimalIs(udp);
    DecimalIs(tcp);
    DecimalIs(expiration);
    NumbersIs(target);
  }

  lemma {:induction false} NodesAre(ip: seq<byte> -> string, ns: seq<Node>)
    ensures NodesText(a => Some(|ip(a)|), ns) == Some(|NodesJson(ip, ns)|)
  {
    hide NodeJson, NodeText;
    if ns != [] {
      NodesAre(ip, ns[..|ns| - 1]);
      NodeIs(ip(ns[|ns| - 1].ip), ns[|ns| - 1]);
    }
  }

  lemma NeighborsAre(ip: seq<byte> -> string, ns: seq<Node>, expiration: nat)
    ensures NeighborsText(a => Some(|ip(a)|), ns, expiration) == Some(|NeighborsJson(ip, ns, expiration)|)
  {
    hide DecimalText, Decimal, NodesText, NodesJson;
    NodesAre(ip, ns);
    DecimalIs(expiration);
  }
}
