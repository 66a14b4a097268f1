/**
 * The two units that cut messages into packets, as they are written.  They emit one
 * packet per step; what they have emitted plus what they still owe is always the same
 * list, the packets of all requests.
 */
module SegmentsUnit {
  import opened Psn
  import opened Transport
  import opened Segments

  lemma Regroup<T>(a: seq<T>, x: seq<T>, m: seq<T>, r: seq<T>)
    ensures (a + x) + m + r == a + (x + m) + r
    ensures (a + x) + m + r == a + [] + ((x + m) + r)
  {
  }

  // ----- local_req_handler -----

  datatype ReadAddr = ReadAddr(qp: nat, addr: nat)

  datatype LocalPorts = LocalPorts(requests: seq<TxMeta>, memCmds: seq<ReadCmd>, readAddrs: seq<ReadAddr>, events: seq<TxEvent>)

  function AllPackets(ms: seq<TxMeta>, pmtu: int): seq<TxEvent>
    requires pmtu > 0
  {
    if |ms| == 0 then [] else PacketsOf(ms[0], pmtu) + AllPackets(ms[1..], pmtu)
  }

  predicate IsRead(op: AppOp) {
    op == AppRead || op == AppPointer || op == AppReadConsistent
  }

  /** One memory read command per write message, for its whole length. */
  function AllCmds(ms: seq<TxMeta>): seq<ReadCmd> {
    if |ms| == 0 then []
    else (if IsRead(ms[0].op) then [] else [ReadCmd(ms[0].qp, ms[0].localAddr, ms[0].length)]) + AllCmds(ms[1..])
  }

  /** One queued local address per read message. */
  function AllAddrs(ms: seq<TxMeta>): seq<ReadAddr> {
    if |ms| == 0 then []
    else (if IsRead(ms[0].op) then [ReadAddr(ms[0].qp, ms[0].localAddr)] else []) + AllAddrs(ms[1..])
  }

  class LocalRequestHandler {
    const pmtu: int
    var generating: bool
    var meta: TxMeta

    constructor (pmtu: int)
      requires pmtu > 0
      ensures Valid() && !generating && this.pmtu == pmtu
    {
      this.pmtu, generating, meta := pmtu, false, TxMeta(AppRead, 0, 0, 0, 0);
    }

    ghost predicate Valid()
      reads this
    {
      pmtu > 0 && (generating ==> !IsRead(meta.op))
    }

    /** The packets still owed to the message in progress. */
    ghost function Rest(): seq<TxEvent>
      requires Valid()
      reads this
    {
      if generating then RestOfWrite(meta, pmtu) else []
    }

    /** Emitted packets, then those of the message in progress, then those of the waiting messages. */
    ghost function Owed(io: LocalPorts): seq<TxEvent>
      requires Valid()
      reads this
    {
      io.events + Rest() + AllPackets(io.requests, pmtu)
    }

    method Step(input: LocalPorts) returns (io: LocalPorts)
      requires Valid()
      modifies this
      ensures Valid()
      ensures Owed(io) == old(Owed(input))
      ensures io.memCmds + AllCmds(io.requests) == input.memCmds + AllCmds(input.requests)
      ensures io.readAddrs + AllAddrs(io.requests) == input.readAddrs + AllAddrs(input.requests)
      ensures old(generating) ==> |io.events| == |input.events| + 1 && io.requests == input.requests
      ensures !old(generating) && |input.requests| > 0 ==> io.requests == input.requests[1..]
    {
      hide RestOfWrite, PacketsOf;
      io := input;
      if generating {
        var e := Generate();
        io := io.(events := io.events + [e]);
        Regroup(input.events, [e], Rest(), AllPackets(io.requests, pmtu));
      } else if |io.requests| > 0 {
        var es, cmds, addrs := Take(io.requests[0]);
        io := io.(requests := io.requests[1..], events := io.events + es,
                  memCmds := io.memCmds + cmds, readAddrs := io.readAddrs + addrs);
        Regroup(input.events, es, Rest(), AllPackets(io.requests, pmtu));
      }
    }

    /** State GENERATE: the next packet of the write in progress. */
    method Generate() returns (e: TxEvent)
      requires Valid() && generating
      modifies this
      ensures Valid()
      ensures [e] + Rest() == old(Rest())
    {
      var raddr, length := meta.remoteAddr, meta.length;
      var writeOpcode;
      if meta.length > pmtu {
        length := pmtu;
        writeOpcode := if meta.op == AppPart then PartMiddle else WriteMiddle;
        meta := meta.(localAddr := (meta.localAddr + pmtu) % ADDRESSES,
                      remoteAddr := (meta.remoteAddr + pmtu) % ADDRESSES, length := meta.length - pmtu);
      } else {
        writeOpcode := if meta.op == AppPart then PartLast else WriteLast;
        generating := false;
      }
      e := TxEvent(writeOpcode, meta.qp, raddr, length, 0, false);
    }

    /** State META: the first packet of a message, its memory command or its read address. */
    method Take(m: TxMeta) returns (es: seq<TxEvent>, cmds: seq<ReadCmd>, addrs: seq<ReadAddr>)
      requires Valid() && !generating
      modifies this
      ensures Valid()
      ensures es + Rest() == PacketsOf(m, pmtu)
      ensures cmds == if IsRead(m.op) then [] else [ReadCmd(m.qp, m.localAddr, m.length)]
      ensures addrs == if IsRead(m.op) then [ReadAddr(m.qp, m.localAddr)] else []
    {
      meta := m;
      es, cmds, addrs := [], [], [];
      if meta.op == AppRead || meta.op == AppPointer || meta.op == AppReadConsistent {
        if meta.op == AppRead {
          es := [TxEvent(ReadRequest, meta.qp, meta.remoteAddr, meta.length, 0, false)];
        } else if meta.op == AppReadConsistent {
          es := [TxEvent(ReadConsistentRequest, meta.qp, meta.remoteAddr, meta.length, 0, false)];
        }
        addrs := [ReadAddr(meta.qp, meta.localAddr)];
      } else {
        var laddr, raddr, dmaLength := meta.localAddr, meta.remoteAddr, meta.length;
        var writeOpcode := if meta.op == AppPart then PartOnly else WriteOnly;
        if meta.length > pmtu {
          meta := meta.(localAddr := (meta.localAddr + pmtu) % ADDRESSES,
                        remoteAddr := (meta.remoteAddr + pmtu) % ADDRESSES, length := meta.length - pmtu);
          writeOpcode := if meta.op == AppPart then PartFirst else WriteFirst;
          generating := true;
        }
        cmds := [ReadCmd(meta.qp, laddr, dmaLength)];
        es := [TxEvent(writeOpcode, meta.qp, raddr, dmaLength, 0, false)];
      }
    }
  }

  // ----- handle_read_requests -----

  datatype ReadPorts = ReadPorts(requests: seq<ReadRequestMeta>, memCmds: seq<ReadCmd>, events: seq<TxEvent>)

  function AllResponsesTo(rs: seq<ReadRequestMeta>, pmtu: int): seq<TxEvent>
    requires pmtu > 0
  {
    if |rs| == 0 then [] else ResponsesTo(rs[0], pmtu) + AllResponsesTo(rs[1..], pmtu)
  }

  function AllReads(rs: seq<ReadRequestMeta>): seq<ReadCmd> {
    if |rs| == 0 then [] else [ReadCmd(rs[0].qp, rs[0].vaddr, rs[0].length)] + AllReads(rs[1..])
  }

  class ReadRequestHandler {
    const pmtu: int
    var generating: bool
    var request: ReadRequestMeta

    constructor (pmtu: int)
      requires pmtu > 0
      ensures pmtu > 0 && this.pmtu == pmtu && !generating
    {
      this.pmtu, generating, request := pmtu, false, ReadRequestMeta(0, 0, 0, 0);
    }

    /** The responses still owed to the read in progress; the register holds the PSN of the last one sent. */
    ghost function Rest(): seq<TxEvent>
      requires pmtu > 0
      reads this
    {
      if generating then RestOfRead(request.(psn := Add(request.psn, 1)), pmtu) else []
    }

    ghost function Owed(io: ReadPorts): seq<TxEvent>
      requires pmtu > 0
      reads this
    {
      io.events + Rest() + AllResponsesTo(io.requests, pmtu)
    }

    method Step(input: ReadPorts) returns (io: ReadPorts)
      requires pmtu > 0
      modifies this
      ensures Owed(io) == old(Owed(input))
      ensures io.memCmds + AllReads(io.requests) == input.memCmds + AllReads(input.requests)
      ensures old(generating) ==> |io.events| == |input.events| + 1 && io.requests == input.requests
      ensures !old(generating) && |input.requests| > 0 ==> io.requests == input.requests[1..]
    {
      hide RestOfRead, ResponsesTo;
      io := input;
      if generating {
        var e := Generate();
        io := io.(events := io.events + [e]);
        Regroup(input.events, [e], Rest(), AllResponsesTo(io.requests, pmtu));
      } else if |io.requests| > 0 {
        var cmd, e := Take(io.requests[0]);
        io := io.(requests := io.requests[1..], memCmds := io.memCmds + [cmd], events := io.events + [e]);
        Regroup(input.events, [e], Rest(), AllResponsesTo(io.requests, pmtu));
      }
    }

    /** State GENERATE: the next response to the read in progress. */
    method Generate() returns (e: TxEvent)
      requires pmtu > 0 && generating
      modifies this
      ensures [e] + Rest() == old(Rest())
    {
      var readLength, readOpcode := request.length, ReadRespLast;
      if request.length > pmtu {
        readLength := pmtu;
        request := request.(vaddr := (request.vaddr + pmtu) % ADDRESSES, length := request.length - pmtu);
        readOpcode := ReadRespMiddle;
      } else {
        generating := false;
      }
      request := request.(psn := Add(request.psn, 1));
      e := TxEvent(readOpcode, request.qp, 0, readLength, request.psn, true);
    }

    /** State META: one memory read for the whole length, and the first response. */
    method Take(r: ReadRequestMeta) returns (cmd: ReadCmd, e: TxEvent)
      requires pmtu > 0 && !generating
      modifies this
      ensures [e] + Rest() == ResponsesTo(r, pmtu)
      ensures cmd == ReadCmd(r.qp, r.vaddr, r.length)
    {
      request := r;
      var readAddr, readLength, dmaLength, readOpcode := request.vaddr, request.length, request.length, ReadRespOnly;
      if request.length > pmtu {
        readLength := pmtu;
        request := request.(vaddr := (request.vaddr + pmtu) % ADDRESSES, length := request.length - pmtu);
        readOpcode := ReadRespFirst;
        generating := true;
      }
      cmd := ReadCmd(request.qp, readAddr, dmaLength);
      e := TxEvent(readOpcode, request.qp, 0, readLength, request.psn, true);
    }
  }
}
