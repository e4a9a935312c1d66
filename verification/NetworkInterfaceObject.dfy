/** The network interface as an object with its three maps, two queues and a clock. */
module NetworkInterfaceObjects {
  import opened Types
  import opened Ipv4
  import opened NetworkInterfaces

  /** Erases expired entries while walking over them, in whatever order the hash map
      gives. */
  method EraseExpired(cache0: map<IpAddress, EthernetAddress>, expire0: map<IpAddress, nat>, now: nat)
    returns (cache: map<IpAddress, EthernetAddress>, expire: map<IpAddress, nat>)
    ensures forall k :: k in expire <==> k in expire0 && expire0[k] >= now
    ensures forall k :: k in expire ==> expire[k] == expire0[k]
    ensures forall k :: k in cache <==> k in cache0 && !(k in expire0 && expire0[k] < now)
    ensures forall k :: k in cache ==> cache[k] == cache0[k]
  {
    cache, expire := cache0, expire0;
    var todo: set<IpAddress> := expire0.Keys;
    while todo != {}
      invariant todo <= expire0.Keys
      invariant forall k :: k in expire <==> k in expire0 && (k in todo || expire0[k] >= now)
      invariant forall k :: k in expire ==> expire[k] == expire0[k]
      invariant forall k :: k in cache <==> k in cache0 && !(k in expire0 && k !in todo && expire0[k] < now)
      invariant forall k :: k in cache ==> cache[k] == cache0[k]
      decreases todo
    {
      var k :| k in todo;
      if expire[k] < now {
        cache := cache - {k};
        expire := expire - {k};
      }
      todo := todo - {k};
    }
  }

  class NetworkInterface {
    const ethernetAddress: EthernetAddress
    const ipAddress: IpAddress
    var framesOut: seq<Frame>
    var ipEthernetCache: map<IpAddress, EthernetAddress>
    var ipExpireTime: map<IpAddress, nat>
    var arpExpireTime: map<IpAddress, nat>
    var blockedIpDatagram: seq<(IpAddress, Datagram)>
    var msSinceRunning: nat

    constructor (eth: EthernetAddress, ip: IpAddress)
      ensures Model() == NewIface(eth, ip)
    {
      ethernetAddress, ipAddress := eth, ip;
      framesOut, blockedIpDatagram, msSinceRunning := [], [], 0;
      ipEthernetCache, ipExpireTime, arpExpireTime := map[], map[], map[];
    }

    ghost function Model(): Iface
      reads this
    {
      Iface(ethernetAddress, ipAddress, ipEthernetCache, ipExpireTime, arpExpireTime,
            blockedIpDatagram, msSinceRunning, framesOut)
    }

    method UpdateIpEthernetCache(ip: IpAddress, eth: EthernetAddress)
      modifies this
      ensures Model() == Learn(old(Model()), ip, eth)
    {
      ipEthernetCache := ipEthernetCache[ip := eth];
      ipExpireTime := ipExpireTime[ip := msSinceRunning + 30000];
      arpExpireTime := arpExpireTime - {ip};
    }

    method SendDatagram(dgram: Datagram, nextHop: IpAddress)
      modifies this
      ensures Model() == NetworkInterfaces.SendDatagram(old(Model()), dgram, nextHop)
    {
      if nextHop !in ipEthernetCache || nextHop !in ipExpireTime || ipExpireTime[nextHop] < msSinceRunning {
        if nextHop in arpExpireTime && arpExpireTime[nextHop] >= msSinceRunning {
          return;
        }
        var arp := ArpMessage(OPCODE_REQUEST, ethernetAddress, ipAddress, 0, nextHop);
        framesOut := framesOut + [Frame(ETHERNET_BROADCAST, ethernetAddress, ArpPayload(arp))];
        blockedIpDatagram := blockedIpDatagram + [(nextHop, dgram)];
        arpExpireTime := arpExpireTime[nextHop := msSinceRunning + 5000];
        return;
      }
      framesOut := framesOut + [Frame(ipEthernetCache[nextHop], ethernetAddress, IpPayload(dgram))];
    }

    method DrainBlocked()
      modifies this
      ensures Model() == Drain(old(Model()))
    {
      while blockedIpDatagram != []
        invariant Drain(Model()) == Drain(old(Model()))
        decreases |blockedIpDatagram|
      {
        var (nextHop, dgram) := blockedIpDatagram[0];
        if nextHop !in ipEthernetCache || nextHop !in ipExpireTime || ipExpireTime[nextHop] < msSinceRunning {
          break;
        }
        framesOut := framesOut + [Frame(ipEthernetCache[nextHop], ethernetAddress, IpPayload(dgram))];
        blockedIpDatagram := blockedIpDatagram[1..];
      }
    }

    method RecvFrame(frame: Frame) returns (dgram: Option<Datagram>)
      modifies this
      ensures Model() == NetworkInterfaces.RecvFrame(old(Model()), frame)
      ensures dgram == Received(old(Model()), frame)
    {
      if frame.dst != ethernetAddress && frame.dst != ETHERNET_BROADCAST {
        return None;
      }
      match frame.payload
      case ArpPayload(arp) =>
        if arp.opcode == OPCODE_REPLY {
          UpdateIpEthernetCache(arp.senderIp, arp.senderEth);
          DrainBlocked();
        } else if arp.opcode == OPCODE_REQUEST {
          UpdateIpEthernetCache(arp.senderIp, arp.senderEth);
          if arp.targetIp == ipAddress {
            var reply := ArpMessage(OPCODE_REPLY, ethernetAddress, ipAddress, arp.senderEth, arp.senderIp);
            framesOut := framesOut + [Frame(arp.senderEth, ethernetAddress, ArpPayload(reply))];
          }
        }
        return None;
      case IpPayload(d) =>
        return Some(d);
      case Malformed =>
        return None;
    }

    method Tick(ms: nat)
      modifies this
      ensures Model() == NetworkInterfaces.Tick(old(Model()), ms)
    {
      msSinceRunning := msSinceRunning + ms;
      ipEthernetCache, ipExpireTime := EraseExpired(ipEthernetCache, ipExpireTime, msSinceRunning);
      ghost var t := NetworkInterfaces.Tick(old(Model()), ms);
      assert ipExpireTime == t.expire && ipEthernetCache == t.cache;
    }
  }
}
