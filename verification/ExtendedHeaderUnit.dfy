/**
 * rx_exh_fsm and msn_table as they are written, on registers and on an array.
 */
module ExtendedHeaderUnit {
  import opened Psn
  import opened Transport
  import opened Segments
  import opened ExtendedHeader

  class ExhFsm {
    var state: ExhState
    var meta: Arrival
    var consumeReadAddr: bool
    var dmaMeta: DmaState
    var readReqAddr: nat

    function Regs(): Fsm
      reads this
    {
      Fsm(state, meta, consumeReadAddr, dmaMeta, readReqAddr)
    }

    constructor ()
      ensures state == META
    {
      state, meta := META, Arrival(Ack, 0, 0, 0, 0, 0);
      consumeReadAddr, dmaMeta, readReqAddr := false, DmaState(0, 0, 0), 0;
    }

    method Step(input: Ports) returns (io: Ports)
      modifies this
      ensures (Regs(), io) == FsmStep(old(Regs()), input)
    {
      hide Receive, WritesEntry;
      io := input;
      match state {
        case META =>
          if |io.metaIn| > 0 {
            meta := io.metaIn[0];
            io := io.(metaIn := io.metaIn[1..], tableReq := io.tableReq + [MsnRead(meta.qp)]);
            consumeReadAddr := false;
            if meta.op == ReadRespOnly || meta.op == ReadRespFirst {
              consumeReadAddr := true;
              io := io.(popReq := io.popReq + [meta.qp]);
            }
            state := DMA_META;
          }
        case DMA_META =>
          if |io.tableRsp| > 0 && (!consumeReadAddr || |io.popRsp| > 0) {
            dmaMeta := io.tableRsp[0];
            io := io.(tableRsp := io.tableRsp[1..]);
            if consumeReadAddr {
              readReqAddr := io.popRsp[0];
              io := io.(popRsp := io.popRsp[1..]);
            }
            state := DATA;
          }
        case DATA =>
          var done, update, out := Data(meta, dmaMeta, readReqAddr, io.out);
          assert io.tableReq + [] == io.tableReq;
          if done {
            io := io.(out := out, tableReq := io.tableReq + update);
            state := META;
          }
      }
    }
  }

  /** State DATA for one packet, given its MSN table entry: the switch over the op codes. */
  method Data(p: Arrival, dma: DmaState, readAddr: nat, out: ExhOut) returns (done: bool, update: seq<MsnReq>, out': ExhOut)
    ensures done == Proceeds(p)
    ensures done ==>
      var c := Receive(Pack(dma, [readAddr], out), p);
      out' == OutOf(c) && update == (if WritesEntry(p) then [MsnWrite(p.qp, c.dma)] else [])
  {
    done, update, out' := true, [], out;
    var msn := (dma.msn + 1) % PSN_SPACE;
    match p.op {
      case WriteOnly => done, update, out' := WriteStart(p, dma, out, false);
      case WriteFirst => done, update, out' := WriteStart(p, dma, out, false);
      case PartOnly => done, update, out' := WriteStart(p, dma, out, true);
      case PartFirst => done, update, out' := WriteStart(p, dma, out, true);
      case WriteMiddle => update, out' := WriteNext(p, dma, out, false);
      case WriteLast => update, out' := WriteNext(p, dma, out, false);
      case PartMiddle => update, out' := WriteNext(p, dma, out, true);
      case PartLast => update, out' := WriteNext(p, dma, out, true);
      case ReadRequest => update, out' := ReadStart(p, dma, out);
      case ReadConsistentRequest => update, out' := ReadStart(p, dma, out);
      case ReadRespOnly => update, out' := ResponseStart(p, dma, readAddr, out);
      case ReadRespFirst => update, out' := ResponseStart(p, dma, readAddr, out);
      case ReadRespLast =>
        var payload := (p.udpLength - (8 + 12 + 4 + 4)) % LENGTHS;
        out' := out.(cmds := out.cmds + [MemCmd(dma.vaddr, payload, false)]);
      case ReadRespMiddle =>
        var payload := (p.udpLength - (8 + 12 + 4)) % LENGTHS;
        out' := out.(cmds := out.cmds + [MemCmd(dma.vaddr, payload, false)]);
        update := [MsnWrite(p.qp, DmaState(msn, (dma.vaddr + payload) % ADDRESSES64, 0))];
      case Ack =>
      case _ => done := false;
    }
  }

  method WriteStart(p: Arrival, dma: DmaState, out: ExhOut, part: bool) returns (done: bool, update: seq<MsnReq>, out': ExhOut)
    ensures done == (p.rethLength != 0)
    ensures done ==>
      var c := ReceiveFirst(Pack(dma, [], out), p, part);
      out' == OutOf(c) && update == [MsnWrite(p.qp, c.dma)]
  {
    done, update, out' := p.rethLength != 0, [], out;
    if done {
      var payload := (p.udpLength - (8 + 12 + 16 + 4)) % LENGTHS;
      var remaining := (p.rethLength - payload) % LENGTHS;
      if !part {
        out' := out.(cmds := out.cmds + [MemCmd(p.rethAddr, payload, false)], acks := out.acks + 1);
      } else {
        out' := out.(cmds := out.cmds + [MemCmd(p.rethAddr, p.rethLength, true)], acks := out.acks + 1);
      }
      update := [MsnWrite(p.qp, DmaState((dma.msn + 1) % PSN_SPACE, (p.rethAddr + payload) % ADDRESSES64, remaining))];
    }
  }

  method WriteNext(p: Arrival, dma: DmaState, out: ExhOut, part: bool) returns (update: seq<MsnReq>, out': ExhOut)
    ensures var c := ReceiveNext(Pack(dma, [], out), p, part);
      out' == OutOf(c) && update == [MsnWrite(p.qp, c.dma)]
  {
    var payload := (p.udpLength - (8 + 12 + 4)) % LENGTHS;
    var remaining := (dma.length - payload) % LENGTHS;
    out' := out.(acks := out.acks + 1);
    if !part {
      out' := out'.(cmds := out.cmds + [MemCmd(dma.vaddr, payload, false)]);
    }
    update := [MsnWrite(p.qp, DmaState((dma.msn + 1) % PSN_SPACE, (dma.vaddr + payload) % ADDRESSES64, remaining))];
  }

  method ReadStart(p: Arrival, dma: DmaState, out: ExhOut) returns (update: seq<MsnReq>, out': ExhOut)
    ensures var c := ReceiveRead(Pack(dma, [], out), p);
      out' == OutOf(c) && update == (if p.rethLength != 0 then [MsnWrite(p.qp, c.dma)] else [])
  {
    update, out' := [], out;
    if p.rethLength != 0 {
      out' := out.(readRequests := out.readRequests + [ReadRequestMeta(p.qp, p.rethAddr % ADDRESSES, p.rethLength, p.psn)]);
      update := [MsnWrite(p.qp, DmaState((dma.msn + 1) % PSN_SPACE, 0, 0))];
    }
  }

  method ResponseStart(p: Arrival, dma: DmaState, readAddr: nat, out: ExhOut) returns (update: seq<MsnReq>, out': ExhOut)
    ensures var c := ReceiveResponse(Pack(dma, [readAddr], out), p);
      out' == OutOf(c) && update == [MsnWrite(p.qp, c.dma)]
  {
    var payload := (p.udpLength - (8 + 12 + 4 + 4)) % LENGTHS;
    out' := out.(cmds := out.cmds + [MemCmd(readAddr, payload, false)]);
    update := [MsnWrite(p.qp, DmaState(dma.msn, (readAddr + payload) % ADDRESSES64, 0))];
  }

  class MsnTable {
    const msnTable: array<DmaState>

    constructor (maxQps: nat)
      ensures fresh(msnTable) && msnTable.Length == maxQps
      ensures forall q | 0 <= q < maxQps :: msnTable[q] == DmaState(0, 0, 0)
    {
      msnTable := new DmaState[maxQps](_ => DmaState(0, 0, 0));
    }

    /** The receive side first, then the transmit side; whatever else there is in the node n stays as it is. */
    method Step(io: Ports, txReq: seq<nat>, txRsp: seq<nat>, ghost n: ExtendedHeader.Node)
      returns (io': Ports, txReq': seq<nat>, txRsp': seq<nat>)
      requires QpsExist(n) && n.table == msnTable[..] && n.io == io && n.txReq == txReq && n.txRsp == txRsp
      modifies msnTable
      ensures n.(io := io', table := msnTable[..], txReq := txReq', txRsp := txRsp') == ExtendedHeader.TableStep(n)
    {
      io', txReq', txRsp' := io, txReq, txRsp;
      if |io.tableReq| > 0 {
        var rxRequest := io.tableReq[0];
        io' := io.(tableReq := io.tableReq[1..]);
        if rxRequest.MsnWrite? {
          msnTable[rxRequest.qp] := rxRequest.dma;
        } else {
          io' := io'.(tableRsp := io.tableRsp + [msnTable[rxRequest.qp]]);
        }
      } else if |txReq| > 0 {
        txRsp' := txRsp + [msnTable[txReq[0]].msn];
        txReq' := txReq[1..];
      }
    }
  }
}
