/** The network interface: IPv4 datagrams over Ethernet, with addresses found by ARP
    (RFC 826). */
module NetworkInterfaces {
  import opened Types
  import opened Ipv4

  type EthernetAddress = nat
  type IpAddress = nat

  const ETHERNET_BROADCAST: EthernetAddress := 0xFFFF_FFFF_FFFF
  const CACHE_LIFETIME: nat := 30000
  const REQUEST_INTERVAL: nat := 5000
  const OPCODE_REQUEST: nat := 1
  const OPCODE_REPLY: nat := 2

  datatype ArpMessage = ArpMessage(
    opcode: nat, senderEth: EthernetAddress, senderIp: IpAddress,
    targetEth: EthernetAddress, targetIp: IpAddress)

  /** A frame's payload by type; `Malformed` does not parse as its type says, or has
      a type that is neither. */
  datatype Payload = ArpPayload(arp: ArpMessage) | IpPayload(dgram: Datagram) | Malformed

  datatype Frame = Frame(dst: EthernetAddress, src: EthernetAddress, payload: Payload)

  /** `expire` and `pending` hold the last instant at which an entry still counts. */
  datatype Iface = Iface(
    eth: EthernetAddress, ip: IpAddress, cache: map<IpAddress, EthernetAddress>,
    expire: map<IpAddress, nat>, pending: map<IpAddress, nat>,
    blocked: seq<(IpAddress, Datagram)>, now: nat, out: seq<Frame>)

  function NewIface(eth: EthernetAddress, ip: IpAddress): Iface {
    Iface(eth, ip, map[], map[], map[], [], 0, [])
  }

  function RequestFrame(i: Iface, target: IpAddress): Frame {
    Frame(ETHERNET_BROADCAST, i.eth, ArpPayload(ArpMessage(OPCODE_REQUEST, i.eth, i.ip, 0, target)))
  }

  function ReplyFrame(i: Iface, eth: EthernetAddress, target: IpAddress): Frame {
    Frame(eth, i.eth, ArpPayload(ArpMessage(OPCODE_REPLY, i.eth, i.ip, eth, target)))
  }

  function IpFrame(i: Iface, dgram: Datagram, dst: EthernetAddress): Frame {
    Frame(dst, i.eth, IpPayload(dgram))
  }

  predicate Resolved(i: Iface, hop: IpAddress) {
    hop in i.cache && hop in i.expire && i.expire[hop] >= i.now
  }

  predicate RequestPending(i: Iface, hop: IpAddress) {
    hop in i.pending && i.pending[hop] >= i.now
  }

  function SendDatagram(i: Iface, dgram: Datagram, hop: IpAddress): Iface {
    if Resolved(i, hop) then i.(out := i.out + [IpFrame(i, dgram, i.cache[hop])])
    else if RequestPending(i, hop) then i
    else i.(out := i.out + [RequestFrame(i, hop)],
            blocked := i.blocked + [(hop, dgram)],
            pending := i.pending[hop := i.now + REQUEST_INTERVAL])
  }

  function Learn(i: Iface, ip: IpAddress, eth: EthernetAddress): Iface {
    i.(cache := i.cache[ip := eth],
       expire := i.expire[ip := i.now + CACHE_LIFETIME],
       pending := i.pending - {ip})
  }

  /** Sends blocked datagrams until the first whose hop is still unknown. */
  function Drain(i: Iface): Iface
    decreases |i.blocked|
  {
    if i.blocked == [] || !Resolved(i, i.blocked[0].0) then i
    else
      var (hop, dgram) := i.blocked[0];
      Drain(i.(out := i.out + [IpFrame(i, dgram, i.cache[hop])], blocked := i.blocked[1..]))
  }

  predicate ForUs(i: Iface, f: Frame) {
    f.dst == i.eth || f.dst == ETHERNET_BROADCAST
  }

  /** An ARP message that teaches us its sender's address. */
  predicate Teaches(i: Iface, f: Frame) {
    ForUs(i, f) && f.payload.ArpPayload?
    && (f.payload.arp.opcode == OPCODE_REPLY || f.payload.arp.opcode == OPCODE_REQUEST)
  }

  function RecvFrame(i: Iface, f: Frame): Iface {
    if !Teaches(i, f) then i
    else
      var arp := f.payload.arp;
      var learned := Learn(i, arp.senderIp, arp.senderEth);
      if arp.opcode == OPCODE_REPLY then Drain(learned)
      else if arp.targetIp == i.ip
      then learned.(out := learned.out + [ReplyFrame(i, arp.senderEth, arp.senderIp)])
      else learned
  }

  /** The datagram that a frame hands up the stack. */
  function Received(i: Iface, f: Frame): Option<Datagram> {
    if ForUs(i, f) && f.payload.IpPayload? then Some(f.payload.dgram) else None
  }

  function Tick(i: Iface, ms: nat): Iface {
    var now := i.now + ms;
    i.(now := now,
       cache := map k | k in i.cache && !(k in i.expire && i.expire[k] < now) :: i.cache[k],
       expire := map k | k in i.expire && i.expire[k] >= now :: i.expire[k])
  }
}
