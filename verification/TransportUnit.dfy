/**
 * The processes of the transport as they are written: static registers and the
 * state table updated in place, streams passed in and out.  Each step is proved to
 * be the step that the run theorems are about.
 */
module TransportUnit {
  import opened Psn
  import opened Transport
  import opened TransportSetup

  datatype RxPorts = RxPorts(rxIn: seq<Packet>, rxReq: seq<RxStateReq>, rxRsp: seq<RxStateRsp>, rxOut: RxOut)

  /** rx_ibh_fsm */
  class ReceiveFsm {
    var busy: bool
    var meta: Packet
    var isResponse: bool

    constructor ()
      ensures Valid() && !busy
    {
      busy, meta, isResponse := false, Packet(Ack, 0, 0, false, 0), false;
    }

    ghost predicate Valid()
      reads this
    {
      busy ==> isResponse == IsResponse(meta.op)
    }

    ghost function Within(n: Node, io: RxPorts): Node
      reads this
    {
      n.(rxIn := io.rxIn, rxReq := io.rxReq, rxRsp := io.rxRsp, rxOut := io.rxOut, rxBusy := busy, packet := meta)
    }

    method Step(input: RxPorts, ghost n: Node) returns (io: RxPorts)
      requires Valid()
      modifies this
      ensures Valid()
      ensures Within(n, io) == RxStep(old(Within(n, input)))
    {
      io := input;
      if !busy {
        if |io.rxIn| > 0 {
          meta, io := io.rxIn[0], io.(rxIn := io.rxIn[1..]);
          isResponse := IsResponse(meta.op);
          io := io.(rxReq := io.rxReq + [RxRead(meta.qp, isResponse)]);
          busy := true;
        }
      } else if |io.rxRsp| > 0 {
        var qpState := io.rxRsp[0];
        var updates, out := Process(qpState);
        io := io.(rxRsp := io.rxRsp[1..], rxReq := io.rxReq + updates, rxOut := Plus(io.rxOut, out));
        busy := false;
      }
    }

    /** The branches of state PROCESS. */
    method Process(qpState: RxStateRsp) returns (updates: seq<RxStateReq>, out: RxOut)
      requires isResponse == IsResponse(meta.op)
      ensures Verdict(updates, out) == Judge(meta, qpState)
    {
      updates := [];
      var events, dropFlags := [], [];
      if qpState.epsn == meta.psn
         || (meta.op == Ack && ((qpState.epsn <= meta.psn && meta.psn <= qpState.maxForward)
                                || ((qpState.epsn <= meta.psn || meta.psn <= qpState.maxForward)
                                    && qpState.maxForward < qpState.epsn))) {
        if meta.op != Ack && !IsReadRequest(meta.op) {
          dropFlags := [false];
        }
        if !meta.isNak {
          updates := [RxWrite(meta.qp, Add(meta.psn, meta.numPkg), 7, isResponse)];
        }
        out := RxOut([meta], [], dropFlags, [FwdPolicy(false, false)], 0);
      } else if (qpState.oldest < qpState.epsn && meta.psn < qpState.epsn && meta.psn >= qpState.oldest)
                || (qpState.oldest > qpState.epsn && (meta.psn < qpState.epsn || meta.psn >= qpState.oldest)) {
        if IsReadRequest(meta.op) {
          out := RxOut([meta], [], [false], [FwdPolicy(false, false)], 0);
        } else if IsWriteOrPart(meta.op) {
          out := RxOut([], [AckEvent(meta.qp, 0, false, false)], [true], [FwdPolicy(false, true)], 1);
        } else {
          if meta.op != Ack {
            dropFlags := [true];
          }
          out := RxOut([], [], dropFlags, [FwdPolicy(true, false)], 0);
        }
      } else {
        if meta.op != Ack {
          dropFlags := [true];
          var retryCounter := qpState.retryCounter;
          if retryCounter == 7 {
            if isResponse {
              events := [AckEvent(meta.qp, meta.psn, true, true)];
            } else {
              events := [AckEvent(meta.qp, qpState.epsn, true, true)];
            }
            retryCounter := retryCounter - 1;
          }
          updates := [RxWrite(meta.qp, qpState.epsn, retryCounter, isResponse)];
        }
        out := RxOut([], events, dropFlags, [FwdPolicy(true, false)], 1);
      }
    }
  }

  datatype TxPorts = TxPorts(txIn: seq<SendMeta>, txReq: seq<TxStateReq>, txRsp: seq<StateEntry>, headers: seq<Header>)

  /** generate_ibh */
  class HeaderGenerator {
    var busy: bool
    var meta: SendMeta

    constructor ()
      ensures !busy
    {
      busy, meta := false, SendMeta(Ack, 0, 0, 0, false, 0);
    }

    ghost function Within(n: Node, io: TxPorts): Node
      reads this
    {
      n.(txIn := io.txIn, txReq := io.txReq, txRsp := io.txRsp, headers := io.headers, txBusy := busy, meta := meta)
    }

    method Step(input: TxPorts, ghost n: Node) returns (io: TxPorts)
      modifies this
      ensures Within(n, io) == TxStep(old(Within(n, input)))
    {
      io := input;
      if !busy {
        if |io.txIn| > 0 {
          meta, io := io.txIn[0], io.(txIn := io.txIn[1..]);
          if meta.validPsn {
            io := io.(headers := io.headers + [Header(meta, meta.psn)]);
          } else {
            io := io.(txReq := io.txReq + [TxRead(meta.qp)]);
            busy := true;
          }
        }
      } else if |io.txRsp| > 0 {
        var qpState := io.txRsp[0];
        io := io.(txRsp := io.txRsp[1..]);
        if meta.op == Ack {
          io := io.(headers := io.headers + [Header(meta, Add(qpState.respEpsn, -1))]);
        } else {
          io := io.(headers := io.headers + [Header(meta, qpState.reqNextPsn)]);
          var nextPsn := Add(qpState.reqNextPsn, meta.numPkg);
          io := io.(txReq := io.txReq + [TxWrite(meta.qp, nextPsn)]);
        }
        busy := false;
      }
    }
  }

  datatype TablePorts = TablePorts(
    rxReq: seq<RxStateReq>, rxRsp: seq<RxStateRsp>,
    txReq: seq<TxStateReq>, txRsp: seq<StateEntry>,
    ifReq: seq<IfStateReq>, ifRsp: seq<StateEntry>)

  /** state_table */
  class StateTable {
    const table: array<StateEntry>

    constructor (maxQps: nat, initial: StateEntry)
      ensures fresh(table) && table.Length == maxQps
    {
      table := new StateEntry[maxQps](_ => initial);
    }

    ghost function Within(n: Node, io: TablePorts): Node
      reads table
    {
      n.(rxReq := io.rxReq, rxRsp := io.rxRsp, txReq := io.txReq, txRsp := io.txRsp,
         ifReq := io.ifReq, ifRsp := io.ifRsp, table := table[..])
    }

    method Step(input: TablePorts, ghost n: Node) returns (io: TablePorts)
      requires InRange(Within(n, input))
      modifies table
      ensures Within(n, io) == TableStep(old(Within(n, input)))
    {
      io := input;
      if |io.rxReq| > 0 {
        var rx := io.rxReq[0];
        io := io.(rxReq := io.rxReq[1..]);
        match rx {
          case RxWrite(qp, epsn, retryCounter, isResponse) =>
            if isResponse {
              table[qp] := table[qp].(reqOldUnack := epsn);
            } else {
              table[qp] := table[qp].(respEpsn := epsn, retryCounter := retryCounter);
            }
          case RxRead(qp, isResponse) =>
            var entry := table[qp];
            if isResponse {
              io := io.(rxRsp := io.rxRsp + [RxStateRsp(entry.reqOldUnack, entry.reqOldValid, Add(entry.reqNextPsn, -1), 0)]);
            } else {
              io := io.(rxRsp := io.rxRsp + [RxStateRsp(entry.respEpsn, entry.respOldOutstanding, entry.respEpsn, entry.retryCounter)]);
            }
        }
      } else if |io.txReq| > 0 {
        var tx := io.txReq[0];
        io := io.(txReq := io.txReq[1..]);
        match tx {
          case TxWrite(qp, psn) => table[qp] := table[qp].(reqNextPsn := psn);
          case TxRead(qp) => io := io.(txRsp := io.txRsp + [table[qp]]);
        }
      } else if |io.ifReq| > 0 {
        var request := io.ifReq[0];
        io := io.(ifReq := io.ifReq[1..]);
        match request {
          case IfWrite(qp, remotePsn, localPsn) =>
            table[qp] := StateEntry(localPsn, localPsn, remotePsn, remotePsn, remotePsn, 0xF % 8);
          case IfRead(qp) => io := io.(ifRsp := io.ifRsp + [table[qp]]);
        }
      }
    }
  }

  datatype InterfacePorts = InterfacePorts(contexts: seq<QpContext>, ifReq: seq<IfStateReq>, ifRsp: seq<StateEntry>)

  /** qp_interface */
  class QpInterface {
    var waiting: bool
    var context: QpContext

    constructor ()
      ensures !waiting
    {
      waiting, context := false, QpContext(0, 0, 0);
    }

    ghost function Within(n: Node, io: InterfacePorts): Setting
      reads this
    {
      Setting(Interface(io.contexts, waiting, context), n.(ifReq := io.ifReq, ifRsp := io.ifRsp))
    }

    method Step(input: InterfacePorts, ghost n: Node) returns (io: InterfacePorts)
      modifies this
      ensures Within(n, io) == InterfaceStep(old(Within(n, input)))
    {
      io := input;
      if !waiting {
        if |io.contexts| > 0 {
          context, io := io.contexts[0], io.(contexts := io.contexts[1..]);
          io := io.(ifReq := io.ifReq + [IfRead(context.qp)]);
          waiting := true;
        }
      } else if |io.ifRsp| > 0 {
        io := io.(ifRsp := io.ifRsp[1..]);
        io := io.(ifReq := io.ifReq + [IfWrite(context.qp, context.remotePsn, context.localPsn)]);
        waiting := false;
      }
    }
  }
}
