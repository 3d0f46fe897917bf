// The I/O thread: packets are received, checked and either given to one service of an intrusive
// linked list or returned to the pool.
module Io {

  type byte = b: int | 0 <= b < 256

  datatype Option<T> = None | Some(value: T)

  // ---- Packets ----

  class Packet {
    var buffer: seq<byte>      // max_packet_size bytes, part of the packet
    var usedData: nat

    ghost predicate Valid() reads this { usedData <= |buffer| }

    ghost function Contents(): seq<byte>
      reads this
      requires Valid()
    {
      buffer[..usedData]
    }

    constructor (maxPacketSize: nat)
      ensures Valid() && Contents() == [] && |buffer| == maxPacketSize
    {
      buffer := seq(maxPacketSize, i => 0);
      usedData := 0;
    }

    static method AppendData(packet: Packet?, bytes: seq<byte>) returns (ok: bool)
      requires packet != null ==> packet.Valid()
      modifies packet
      ensures packet == null ==> !ok
      ensures packet != null ==>
        && packet.Valid() && |packet.buffer| == old(|packet.buffer|)
        && ok == (|bytes| + old(packet.usedData) <= |packet.buffer|)
        && packet.Contents() == if ok then old(packet.Contents()) + bytes else old(packet.Contents())
    {
      if packet == null { return false; }
      if |bytes| + packet.usedData > |packet.buffer| { return false; }
      var used := packet.usedData;
      packet.buffer := packet.buffer[..used] + bytes + packet.buffer[used + |bytes|..];
      packet.usedData := used + |bytes|;
      return true;
    }

    static method GetData(packet: Packet?) returns (ok: bool, data: seq<byte>)
      requires packet != null ==> packet.Valid()
      ensures ok == (packet != null)
      ensures ok ==> data == packet.Contents()
    {
      if packet == null { return false, []; }
      return true, packet.buffer[..packet.usedData];
    }
  }

  // ---- Services ----

  class ServiceIo {
    const serviceId: int
    var stopped: bool
    var next: ServiceIo?
    var inbox: seq<Packet>     // packets whose ownership ioInput has taken

    constructor (id: int)
      ensures serviceId == id && next == null && inbox == [] && stopped
    {
      serviceId, stopped, next, inbox := id, true, null, [];
    }
  }

  // `first` starts a chain of next pointers that runs through `services` in order and ends.
  ghost predicate IsList(first: ServiceIo?, services: seq<ServiceIo>)
    reads services`next
  {
    && first == (if services == [] then null else services[0])
    && (services != [] ==> services[|services| - 1].next == null)
    && (forall i :: 0 <= i < |services| - 1 ==> services[i].next == services[i + 1])
    && (forall i, j :: 0 <= i < j < |services| ==> services[i] != services[j])
  }

  // Distinct packets of one size.
  ghost predicate IsPool(packets: seq<Packet>, maxPacketSize: nat)
    reads packets
  {
    && (forall i :: 0 <= i < |packets| ==> |packets[i].buffer| == maxPacketSize)
    && (forall i, j :: 0 <= i < j < |packets| ==> packets[i] != packets[j])
  }

  // What the dispatcher looks at: each service's id and whether it is stopped.
  ghost function TableOf(services: seq<ServiceIo>): (r: seq<(int, bool)>)
    reads services`stopped
    ensures |r| == |services|
    ensures forall i :: 0 <= i < |services| ==> r[i] == (services[i].serviceId, services[i].stopped)
  {
    if services == [] then []
    else TableOf(services[..|services| - 1]) + [(services[|services| - 1].serviceId, services[|services| - 1].stopped)]
  }

  datatype Header = Header(serviceId: int, payloadSize: nat)

  // What recvfrom reports: an error, or a datagram.
  datatype Received = Error | Datagram(bytes: seq<byte>)

  // What became of the packet of one iteration.
  datatype Outcome = Freed | Delivered(index: nat)

  // The first registered service that matches the id and is not stopped.
  function Select(services: seq<(int, bool)>, id: int): (r: Option<nat>)
    decreases |services|
  {
    if services == [] then None
    else if services[0] == (id, false) then Some(0)
    else
      match Select(services[1..], id)
      case None => None
      case Some(i) => Some(i + 1)
  }

  lemma {:induction false} SelectIsFirst(services: seq<(int, bool)>, id: int)
    ensures match Select(services, id)
      case None => (id, false) !in services
      case Some(i) => i < |services| && services[i] == (id, false) && (id, false) !in services[..i]
    decreases |services|
  {
    if services != [] && services[0] != (id, false) {
      SelectIsFirst(services[1..], id);
      var i := Select(services[1..], id);
      if i.Some? && i.value < |services| - 1 {
        assert services[..i.value + 1] == [services[0]] + services[1..][..i.value];
      } else {
        assert services == [services[0]] + services[1..];
      }
    }
  }

  // ---- The list and the loop ----

  class IoThread {
    var firstService: ServiceIo?
    ghost var services: seq<ServiceIo>
    var free: seq<Packet>                       // the pool's free list
    var wire: seq<seq<byte>>                    // datagrams sent
    const headerSize: nat                       // sizeof(XbotHeader)
    const parse: seq<byte> -> Header            // its layout
    const maxPacketSize: nat

    // The intrusive list holds exactly `services`, in that order, and ends.
    ghost predicate Linked()
      reads this`firstService, this`services, services`next
    {
      IsList(firstService, services)
    }

    ghost predicate PoolValid() reads this`free, free { IsPool(free, maxPacketSize) }

    ghost function Table(): (r: seq<(int, bool)>)
      reads this`services, services`stopped
      ensures |r| == |services|
    {
      TableOf(services)
    }

    constructor (headerSize: nat, parse: seq<byte> -> Header, maxPacketSize: nat)
      ensures Linked() && services == [] && free == [] && wire == []
      ensures this.headerSize == headerSize && this.parse == parse && this.maxPacketSize == maxPacketSize
    {
      firstService, services, free, wire := null, [], [], [];
      this.headerSize, this.parse, this.maxPacketSize := headerSize, parse, maxPacketSize;
    }

    method LastService() returns (last: ServiceIo?)
      requires Linked()
      ensures last == if services == [] then null else services[|services| - 1]
    {
      last := null;
      var cursor := firstService;
      ghost var i := 0;
      while cursor != null
        invariant 0 <= i <= |services|
        invariant if i < |services| then cursor == services[i] else cursor == null
        invariant if i == 0 then last == null else last == services[i - 1]
        decreases |services| - i
      {
        last := cursor;
        cursor := cursor.next;
        i := i + 1;
      }
    }

    // Appends a service at the end of the list. Registering a service twice ties the list into a
    // loop.
    method RegisterServiceIo(service: ServiceIo)
      requires Linked()
      requires service !in services ==> service.next == null
      modifies this`firstService, this`services, services`next
      ensures service !in old(services) ==> Linked() && services == old(services) + [service]
      ensures service in old(services) ==>
        services == old(services) && firstService == old(firstService) && Endless(services)
    {
      var last := LastService();
      ghost var before := services;
      if last == null {
        firstService := service;
      } else {
        assert last == before[|before| - 1];
        last.next := service;
        assert forall k :: 0 <= k < |before| - 1 ==> before[k].next == before[k + 1];
      }
      if service !in services {
        services := services + [service];
        assert forall k :: 0 <= k < |before| ==> services[k] == before[k];
        assert services[|before|] == service && service.next == null;
      } else {
        forall k | 0 <= k < |services| ensures services[k].next != null && services[k].next in services {
          if k < |services| - 1 {
            assert services[k].next == services[k + 1];
          }
        }
      }
    }

    // A reception ends with a delivery exactly if it is a datagram of a header and as many bytes as
    // that announces, for a service that is registered and not stopped; then to the first of them.
    ghost predicate EndsRight(received: Received, outcome: Outcome, table: seq<(int, bool)>) {
      && (outcome.Delivered? <==>
          && received.Datagram? && |received.bytes| >= headerSize
          && |received.bytes| == headerSize + parse(received.bytes).payloadSize
          && (parse(received.bytes).serviceId, false) in table)
      && (outcome.Delivered? ==>
          var wanted := (parse(received.bytes).serviceId, false);
          outcome.index < |table| && table[outcome.index] == wanted && wanted !in table[..outcome.index])
    }

    lemma NothingReceived(table: seq<(int, bool)>, boxes: seq<seq<Packet>>, packet: Packet)
      ensures EndsRight(Error, Freed, table) && Deposit(boxes, Freed, packet) == boxes
    {
    }

    // Every packet the I/O thread can reach: on the free list or in some service's inbox.
    ghost function Everything(): multiset<Packet>
      reads this`free, this`services, services`inbox
    {
      multiset(free) + Union(BoxesOf(services))
    }

    // receivePacket: takes a packet from the pool and fills it, or returns it on an error.
    method ReceivePacket(received: Received) returns (packet: Packet?)
      requires PoolValid() && free != []
      requires received.Datagram? ==> |received.bytes| <= maxPacketSize
      modifies this`free, free[0]
      ensures PoolValid()
      ensures received.Error? ==> packet == null && free == old(free)
      ensures received.Datagram? ==>
        && packet == old(free)[0] && free == old(free)[1..] && |packet.buffer| == maxPacketSize
        && packet.Valid() && packet.Contents() == received.bytes
    {
      packet := free[0];
      free := free[1..];
      packet.usedData := 0;
      if received.Error? {
        free := [packet] + free;
        return null;
      }
      packet.buffer := received.bytes + packet.buffer[|received.bytes|..];
      packet.usedData := |received.bytes|;
    }

    // transmitPacket: sends what the packet holds and consumes the packet, whether or not the
    // datagram went out.
    method TransmitPacket(packet: Packet) returns (ok: bool)
      requires PoolValid() && packet.Valid() && |packet.buffer| == maxPacketSize && packet !in free
      modifies this`free, this`wire
      ensures ok && PoolValid() && free == [packet] + old(free)
      ensures wire == old(wire) || wire == old(wire) + [packet.Contents()]
    {
      var sent: bool := *;
      if sent {
        wire := wire + [packet.buffer[..packet.usedData]];
      }
      free := [packet] + free;
      ok := true;
    }

    // The dispatch scan: gives the packet to the selected service, if there is one.
    method Dispatch(packet: Packet, id: int) returns (target: Option<nat>)
      requires Linked()
      modifies services`inbox
      ensures target == Select(old(Table()), id)
      ensures target.Some? ==> target.value < |services|
      ensures BoxesOf(services) ==
        Deposit(old(BoxesOf(services)), if target.Some? then Delivered(target.value) else Freed, packet)
    {
      var service := firstService;
      var i := 0;
      ghost var table := Table();
      SelectIsFirst(table, id);
      while service != null
        invariant 0 <= i <= |services|
        invariant if i < |services| then service == services[i] else service == null
        invariant (id, false) !in table[..i]
        decreases |services| - i
      {
        assert table[..i + 1] == table[..i] + [table[i]];
        if service.serviceId == id {
          if !service.stopped {
            SelectAt(table, id, i);
            service.inbox := service.inbox + [packet];
            return Some(i);
          }
        }
        service := service.next;
        i := i + 1;
      }
      assert table[..|services|] == table;
      return None;
    }

    // What the loop does with a received packet it owns: gives it to one service or frees it.
    method Process(packet: Packet) returns (outcome: Outcome)
      requires Linked() && packet.Valid()
      modifies this`free, services`inbox
      ensures var bytes := packet.Contents();
        outcome.Delivered? <==>
          && |bytes| >= headerSize && |bytes| == headerSize + parse(bytes).payloadSize
          && (parse(bytes).serviceId, false) in Table()
      ensures EndsRight(Datagram(packet.Contents()), outcome, Table())
      ensures outcome.Delivered? ==> outcome.index < |services|
      ensures free == if outcome.Freed? then [packet] + old(free) else old(free)
      ensures forall i :: 0 <= i < |services| ==>
        services[i].inbox == old(services[i].inbox) + if outcome == Delivered(i) then [packet] else []
      ensures BoxesOf(services) == Deposit(old(BoxesOf(services)), outcome, packet)
    {
      hide Select, IsList, BoxesOf, TableOf;
      var ok, buffer := Packet.GetData(packet);
      if !ok {
        assert false;
      }
      outcome := Freed;
      if |buffer| < headerSize {
        free := [packet] + free;
        return;
      }
      var header := parse(buffer);
      if |buffer| - headerSize != header.payloadSize {
        free := [packet] + free;
        return;
      }
      var target := Dispatch(packet, header.serviceId);
      SelectIsFirst(Table(), header.serviceId);
      if target.Some? {
        outcome := Delivered(target.value);
      } else {
        free := [packet] + free;
      }
    }

    // One turn of the receive loop: the pool's first packet comes back to its place, or it and
    // only it moves into one inbox, holding what was received.
    method RunOnce(received: Received) returns (outcome: Outcome)
      requires Linked() && PoolValid() && free != []
      requires received.Datagram? ==> |received.bytes| <= maxPacketSize
      modifies this`free, services`inbox, free[0]
      ensures PoolValid()
      ensures outcome.Delivered? <==>
        && received.Datagram? && |received.bytes| >= headerSize
        && |received.bytes| == headerSize + parse(received.bytes).payloadSize
        && (parse(received.bytes).serviceId, false) in Table()
      ensures EndsRight(received, outcome, Table())
      ensures outcome.Delivered? ==>
        outcome.index < |services| && old(free)[0].Valid() && old(free)[0].Contents() == received.bytes
      ensures free == if outcome.Freed? then old(free) else old(free)[1..]
      ensures forall i :: 0 <= i < |services| ==>
        services[i].inbox == old(services[i].inbox) + if outcome == Delivered(i) then [old(free)[0]] else []
      ensures BoxesOf(services) == Deposit(old(BoxesOf(services)), outcome, old(free)[0])
    {
      hide EndsRight, Select, IsList, BoxesOf, TableOf, Deposit;
      ghost var pool := free;
      assert pool == [pool[0]] + pool[1..];
      var packet := ReceivePacket(received);
      if packet == null {
        NothingReceived(Table(), BoxesOf(services), pool[0]);
        return Freed;
      }
      outcome := Process(packet);
      assert outcome.Freed? ==> free == pool;
    }

    // The receive loop over a series of receptions, up to the point where the pool runs dry and
    // allocation blocks: every reception ends as the table demands, and no packet is lost,
    // duplicated or shared.
    method RunIo(receptions: seq<Received>) returns (outcomes: seq<Outcome>)
      requires Linked() && PoolValid()
      requires forall r :: r in receptions && r.Datagram? ==> |r.bytes| <= maxPacketSize
      modifies this`free, services`inbox, free
      ensures Linked() && PoolValid()
      ensures |outcomes| <= |receptions| && (|outcomes| < |receptions| ==> free == [])
      ensures forall i :: 0 <= i < |outcomes| ==> EndsRight(receptions[i], outcomes[i], Table())
      ensures Everything() == old(Everything())
    {
      hide EndsRight, Select, IsList, IsPool, BoxesOf, TableOf, Union, Deposit;
      outcomes := [];
      ghost var table := Table();
      while |outcomes| < |receptions| && free != []
        invariant |outcomes| <= |receptions|
        invariant PoolValid() && forall p :: p in free ==> p in old(free)
        invariant Table() == table
        invariant forall i :: 0 <= i < |outcomes| ==> EndsRight(receptions[i], outcomes[i], table)
        invariant Everything() == old(Everything())
        decreases |receptions| - |outcomes|
      {
        assert free[0] in free;
        ghost var pool, boxes := free, BoxesOf(services);
        var outcome := RunOnce(receptions[|outcomes|]);
        DepositKeepsAll(pool, boxes, outcome);
        assert Everything() == multiset(pool) + Union(boxes);
        outcomes := outcomes + [outcome];
      }
    }
  }

  // The inboxes of a list of services.
  ghost function BoxesOf(services: seq<ServiceIo>): (r: seq<seq<Packet>>)
    reads services`inbox
    ensures |r| == |services|
    ensures forall i :: 0 <= i < |services| ==> r[i] == services[i].inbox
  {
    if services == [] then []
    else BoxesOf(services[..|services| - 1]) + [services[|services| - 1].inbox]
  }

  // The inboxes after a packet met the given outcome.
  function Deposit(boxes: seq<seq<Packet>>, outcome: Outcome, packet: Packet): seq<seq<Packet>> {
    match outcome
    case Delivered(i) => if i < |boxes| then boxes[i := boxes[i] + [packet]] else boxes
    case Freed => boxes
  }

  ghost function Union(boxes: seq<seq<Packet>>): multiset<Packet>
    decreases |boxes|
  {
    if boxes == [] then multiset{}
    else Union(boxes[..|boxes| - 1]) + multiset(boxes[|boxes| - 1])
  }

  // Adding a packet to one inbox adds it exactly once to them all.
  lemma {:induction false} UnionGrows(boxes: seq<seq<Packet>>, index: nat, packet: Packet)
    requires index < |boxes|
    ensures Union(boxes[index := boxes[index] + [packet]]) == Union(boxes) + multiset{packet}
    decreases |boxes|
  {
    var last := |boxes| - 1;
    var after := boxes[index := boxes[index] + [packet]];
    if index == last {
      assert after[..last] == boxes[..last];
    } else {
      UnionGrows(boxes[..last], index, packet);
      assert after[..last] == boxes[..last][index := boxes[index] + [packet]];
    }
  }

  // A packet that leaves the pool's head only for an inbox is neither lost nor duplicated.
  lemma DepositKeepsAll(pool: seq<Packet>, boxes: seq<seq<Packet>>, outcome: Outcome)
    requires pool != [] && (outcome.Delivered? ==> outcome.index < |boxes|)
    ensures multiset(if outcome.Freed? then pool else pool[1..]) + Union(Deposit(boxes, outcome, pool[0]))
         == multiset(pool) + Union(boxes)
  {
    assert pool == [pool[0]] + pool[1..];
    if outcome.Delivered? {
      UnionGrows(boxes, outcome.index, pool[0]);
    }
  }

  lemma SelectAt(services: seq<(int, bool)>, id: int, i: nat)
    requires i < |services| && services[i] == (id, false) && (id, false) !in services[..i]
    ensures Select(services, id) == Some(i)
  {
    SelectIsFirst(services, id);
    assert services[i] in services;
    var r := Select(services, id).value;
    assert forall j :: 0 <= j < i ==> services[j] == services[..i][j];
    assert forall j :: 0 <= j < r ==> services[j] == services[..r][j];
  }

  // ---- A list with a loop ----

  // Every service's successor is again one of the services.
  ghost predicate Endless(services: seq<ServiceIo>)
    reads services
  {
    forall i :: 0 <= i < |services| ==> services[i].next != null && services[i].next in services
  }

  function Walk(s: ServiceIo?, n: nat, services: set<ServiceIo>): ServiceIo?
    reads services
    decreases n
  {
    if n == 0 || s == null || s !in services then s else Walk(s.next, n - 1, services)
  }

  // From any service of such a list a scan that never matches goes on for ever.
  lemma {:induction false} EndlessNeverEnds(services: seq<ServiceIo>, s: ServiceIo, n: nat)
    requires Endless(services) && s in services
    ensures Walk(s, n, set x | x in services) != null
    decreases n
  {
    if n > 0 {
      EndlessNeverEnds(services, s.next, n - 1);
    }
  }
}
