/**
 * The multi queue as it is written: one class per process, whose static
 * variables are its fields and whose streams are passed in and out.  Each step
 * is proved to be the step that the refinement and conservation theorems are
 * about, whatever the state of the rest of the system.
 */
module MultiQueueUnit {
  import opened MultiQueue

  // The streams between the processes and to the users of the queue.
  datatype Ports<T> = Ports(
    pushIn: seq<Insert<T>>, popIn: seq<PopReq>, popRsp: seq<T>,
    ptrReq: seq<PtrReq>, ptrUpd: seq<PtrUpd>, ptrRsp: seq<PtrEntry>,
    metaReq: seq<MetaReq<T>>, metaRsp: seq<MetaEntry<T>>,
    freeList: seq<nat>, release: seq<nat>)

  /** The system s with these streams. */
  ghost function With<T>(s: System<T>, io: Ports<T>): System<T> {
    s.(pushIn := io.pushIn, popIn := io.popIn, popRsp := io.popRsp,
       ptrReq := io.ptrReq, ptrUpd := io.ptrUpd, ptrRsp := io.ptrRsp,
       metaReq := io.metaReq, metaRsp := io.metaRsp, freeList := io.freeList, release := io.release)
  }

  /** mq_process_requests */
  class RequestProcessor<T(0)> {
    var phase: Phase
    var newIdx: nat
    var insert: Insert<T>
    var popReq: PopReq
    var ptrMeta: PtrEntry

    /** The system with this unit's registers and the streams io; s supplies the other units. */
    ghost function Within(s: System<T>, io: Ports<T>): System<T>
      reads this
    {
      With(s, io).(phase := phase, newIdx := newIdx, insert := insert, popReq := popReq, ptrMeta := ptrMeta)
    }

    method Step(input: Ports<T>, ghost s: System<T>) returns (io: Ports<T>)
      modifies this
      ensures Within(s, io) == ProcessStep(old(Within(s, input)))
    {
      match phase {
        case Main => io := StateMain(input, s);
        case Push1 => io := StatePush(input, s);
        case Push2 =>
          io := input.(metaReq := input.metaReq + [Write(newIdx, NewNode(insert.value))],
                       ptrUpd := input.ptrUpd + [PtrUpd(insert.key, ptrMeta)]);
          phase := Main;
        case Pop1 => io := StatePop(input, s);
        case Pop2 => io := StatePop2(input, s);
      }
    }

    method StateMain(input: Ports<T>, ghost s: System<T>) returns (io: Ports<T>)
      modifies this
      ensures Within(s, io) == TakeRequest(old(Within(s, input)))
    {
      io := input;
      if |io.pushIn| > 0 && |io.freeList| > 0 {
        newIdx, io := io.freeList[0], io.(freeList := io.freeList[1..]);
        insert, io := io.pushIn[0], io.(pushIn := io.pushIn[1..]);
        io := io.(ptrReq := io.ptrReq + [PtrReq(insert.key, true)]);
        phase := Push1;
      } else if |io.popIn| > 0 {
        popReq, io := io.popIn[0], io.(popIn := io.popIn[1..]);
        io := io.(ptrReq := io.ptrReq + [PtrReq(popReq.key, false)]);
        phase := Pop1;
      }
    }

    method StatePush(input: Ports<T>, ghost s: System<T>) returns (io: Ports<T>)
      modifies this
      ensures Within(s, io) == PlacePush(old(Within(s, input)))
    {
      io := input;
      if |io.ptrRsp| > 0 {
        ptrMeta, io := io.ptrRsp[0], io.(ptrRsp := io.ptrRsp[1..]);
        if !ptrMeta.valid {
          ptrMeta := PtrEntry(newIdx, newIdx, true);
          io := io.(metaReq := io.metaReq + [Write(newIdx, NewNode(insert.value))],
                    ptrUpd := io.ptrUpd + [PtrUpd(insert.key, ptrMeta)]);
          phase := Main;
        } else {
          io := io.(metaReq := io.metaReq + [Append(ptrMeta.tail, newIdx)]);
          ptrMeta := ptrMeta.(tail := newIdx);
          phase := Push2;
        }
      }
    }

    method StatePop(input: Ports<T>, ghost s: System<T>) returns (io: Ports<T>)
      modifies this
      ensures Within(s, io) == PlacePop(old(Within(s, input)))
    {
      io := input;
      if |io.ptrRsp| > 0 {
        ptrMeta, io := io.ptrRsp[0], io.(ptrRsp := io.ptrRsp[1..]);
        if ptrMeta.valid {
          io := io.(metaReq := io.metaReq + [Read(ptrMeta.head)]);
          phase := Pop2;
        } else {
          phase := Main;
        }
      }
    }

    method StatePop2(input: Ports<T>, ghost s: System<T>) returns (io: Ports<T>)
      modifies this
      ensures Within(s, io) == AnswerPop(old(Within(s, input)))
    {
      io := input;
      if |io.metaRsp| > 0 {
        var meta := io.metaRsp[0];
        io := io.(metaRsp := io.metaRsp[1..]);
        if meta.valid {
          io := io.(popRsp := io.popRsp + [meta.value]);
          if popReq.op == Pop {
            io := io.(release := io.release + [ptrMeta.head]);
            ptrMeta := PtrEntry(meta.next, ptrMeta.tail, !meta.isTail);
            io := io.(ptrUpd := io.ptrUpd + [PtrUpd(popReq.key, ptrMeta)]);
          }
        }
        phase := Main;
      }
    }
  }

  /** mq_pointer_table */
  class PointerTable<T> {
    const table: array<PtrEntry>
    var lockedKey: nat
    var isLocked: bool
    var waiting: bool
    var held: PtrReq

    constructor (numQueues: nat)
      ensures fresh(table) && table.Length == numQueues && !isLocked && !waiting
      ensures forall k | 0 <= k < numQueues :: !table[k].valid
    {
      table := new PtrEntry[numQueues](_ => PtrEntry(0, 0, false));
      lockedKey, isLocked, waiting, held := 0, false, false, PtrReq(0, false);
    }

    ghost function Within(s: System<T>, io: Ports<T>): System<T>
      reads this, table
    {
      With(s, io).(ptrTable := table[..], lockedKey := lockedKey, isLocked := isLocked, waiting := waiting, held := held)
    }

    method Step(input: Ports<T>, ghost s: System<T>) returns (io: Ports<T>)
      requires InRange(Within(s, input))
      modifies this, table
      ensures Within(s, io) == PointerStep(old(Within(s, input)))
    {
      io := input;
      if |io.ptrUpd| > 0 {
        io := ApplyUpdate(input, s);
      } else if |io.ptrReq| > 0 && !waiting {
        io := ServeRequest(input, s);
      } else if waiting {
        if !isLocked {
          io := io.(ptrRsp := io.ptrRsp + [table[held.key]]);
          isLocked, lockedKey := true, held.key;
          waiting := false;
        }
      }
    }

    method ApplyUpdate(input: Ports<T>, ghost s: System<T>) returns (io: Ports<T>)
      requires InRange(Within(s, input)) && |input.ptrUpd| > 0
      modifies this, table
      ensures Within(s, io) == WriteBack(old(Within(s, input)))
    {
      var update := input.ptrUpd[0];
      assert update in input.ptrUpd;
      io := input.(ptrUpd := input.ptrUpd[1..]);
      table[update.key] := update.entry;
      if lockedKey == update.key {
        isLocked := false;
      }
    }

    method ServeRequest(input: Ports<T>, ghost s: System<T>) returns (io: Ports<T>)
      requires InRange(Within(s, input)) && |input.ptrReq| > 0
      modifies this
      ensures Within(s, io) == Lookup(old(Within(s, input)))
    {
      held, io := input.ptrReq[0], input.(ptrReq := input.ptrReq[1..]);
      assert held in input.ptrReq;
      if held.lock && isLocked {
        waiting := true;
      } else {
        io := io.(ptrRsp := io.ptrRsp + [table[held.key]]);
        if held.lock {
          isLocked, lockedKey := true, held.key;
        }
      }
    }
  }

  /** mq_meta_table */
  class MetaTable<T(0)> {
    const table: array<MetaEntry<T>>

    constructor (size: nat)
      ensures fresh(table) && table.Length == size
    {
      table := new MetaEntry<T>[size];
    }

    ghost function Within(s: System<T>, io: Ports<T>): System<T>
      reads table
    {
      With(s, io).(metaTable := table[..])
    }

    method Step(input: Ports<T>, ghost s: System<T>) returns (io: Ports<T>)
      requires InRange(Within(s, input))
      modifies table
      ensures Within(s, io) == MetaStep(old(Within(s, input)))
    {
      io := input;
      if |io.metaReq| > 0 {
        var req := io.metaReq[0];
        assert req in io.metaReq;
        io := io.(metaReq := io.metaReq[1..]);
        match req {
          case Write(idx, entry) => table[idx] := entry;
          case Append(idx, next) => table[idx] := table[idx].(next := next, isTail := false);
          case Read(idx) => io := io.(metaRsp := io.metaRsp + [table[idx]]);
        }
      }
    }
  }

  /** mq_freelist_handler */
  class FreelistHandler<T> {
    const size: nat
    var counter: nat

    constructor (size: nat)
      ensures this.size == size && counter == 0
    {
      this.size, counter := size, 0;
    }

    ghost function Within(s: System<T>, io: Ports<T>): System<T>
      reads this
    {
      With(s, io).(counter := counter)
    }

    method Step(input: Ports<T>, ghost s: System<T>) returns (io: Ports<T>)
      requires |s.metaTable| == size
      modifies this
      ensures Within(s, io) == FreeListStep(old(Within(s, input)))
    {
      io := input;
      if |io.release| > 0 {
        io := io.(freeList := io.freeList + [io.release[0]], release := io.release[1..]);
      } else if counter < size && |io.freeList| < size {
        io := io.(freeList := io.freeList + [counter]);
        counter := (counter + 1) % 0x1_0000;
      }
    }
  }
}
