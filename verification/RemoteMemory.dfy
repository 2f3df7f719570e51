/**
 Memory of the debugged program that the debugger allocates and frees by command. Both ends are
 modelled: the debugger fills the shared record and waits, the debuggee works on its own heap and
 answers in the same record. The debuggee is alive, so every command is answered; whether its
 allocations succeed, and at which addresses, is arbitrary.
 */
module RemoteMemory {
  type Address = int

  const NULL: Address := 0

  /** The live blocks of the debuggee and their bytes. */
  type Heap = map<Address, string>

  datatype Answer = ErrorCode | FragmentData | VertexData | Allocated | OtherAnswer

  datatype PcError = PceNone | PceDbgInvalidValue | PceDbgError(code: int)

  const DBG_NO_ERROR := 0
  const DBG_ERROR_MEMORY_ALLOCATION_FAILED := 3

  class DbgRec {
    var result: Answer
    var numItems: nat
    const items: array<int>

    constructor (maxItems: nat)
      ensures items.Length == maxItems && fresh(items)
    {
      result, numItems := OtherAnswer, 0;
      items := new int[maxItems];
    }

    method SetErrorCode(code: int)
      requires items.Length > 0
      modifies this`result, items
      ensures result == ErrorCode && items[0] == code
    {
      result := ErrorCode;
      items[0] := code;
    }

    function CheckError(): PcError
      requires items.Length > 0
      reads this, items
    {
      if result.ErrorCode? && items[0] != DBG_NO_ERROR then PceDbgError(items[0]) else PceNone
    }
  }

  // ---------- Blocks ----------

  /** No address occurs twice, and all are live; null may occur. */
  ghost predicate Owned(addrs: seq<Address>, heap: Heap) {
    && (forall i :: 0 <= i < |addrs| ==> addrs[i] == NULL || addrs[i] in heap)
    && (forall i, j :: 0 <= i < j < |addrs| ==> addrs[i] == NULL || addrs[i] != addrs[j])
  }

  ghost function Dropped(heap: Heap, addrs: seq<Address>): Heap {
    map a | a in heap && a !in addrs :: heap[a]
  }

  /** The heap `after` is `before` and new blocks at the addresses; a null address is no block. */
  ghost predicate Grown(before: Heap, after: Heap, addrs: seq<Address>) {
    && NULL !in before && NULL !in after && Owned(addrs, after)
    && (forall i :: 0 <= i < |addrs| ==> addrs[i] !in before)
    && Dropped(after, addrs) == before
  }

  lemma {:induction false} GrowOne(before: Heap, after: Heap, more: Heap, addrs: seq<Address>, a: Address)
    requires Grown(before, after, addrs) && a != NULL && a !in after && a in more && more == after[a := more[a]]
    ensures Grown(before, more, addrs + [a])
  {
    forall x | x in after && x !in addrs ensures x in before {
      assert x in Dropped(after, addrs);
    }
    assert forall x :: x in before ==> x in Dropped(after, addrs);
    forall x | x in more && x !in addrs + [a] ensures x in before && more[x] == before[x] {
      assert x in Dropped(after, addrs);
    }
    assert Dropped(more, addrs + [a]) == before;
  }

  lemma {:induction false} GrowNull(before: Heap, after: Heap, addrs: seq<Address>)
    requires Grown(before, after, addrs)
    ensures Grown(before, after, addrs + [NULL])
  {
    assert Dropped(after, addrs + [NULL]) == Dropped(after, addrs);
  }

  // ---------- The debuggee ----------

  /** What the step of the shader comes to: an error, image or vertex data, or some other answer. */
  datatype Outcome = Fails(code: int) | Delivers(size: nat, item1: int, item2: int) | Answers(answer: Answer)

  /** An answer without a buffer is neither the expected data nor an error. */
  predicate Consistent(outcome: Outcome, delivered: Answer) {
    outcome.Answers? ==> outcome.answer != delivered && !outcome.answer.ErrorCode?
  }

  lemma {:induction false} ShrinkFirst(before: Heap, after: Heap, addrs: seq<Address>)
    requires Grown(before, after, addrs) && addrs != []
    ensures addrs[0] == NULL || addrs[0] in after
    ensures Grown(before, if addrs[0] == NULL then after else after - {addrs[0]}, addrs[1..])
  {
    var a, rest := addrs[0], addrs[1..];
    var less := if a == NULL then after else after - {a};
    assert forall i :: 0 <= i < |rest| ==> rest[i] == addrs[i + 1];
    assert forall x :: x in addrs <==> x in rest || x == a;
    assert Dropped(less, rest) == Dropped(after, addrs);
  }

  class Debuggee {
    var heap: Heap
    /** Set when a block was freed that is not live. */
    var fault: bool

    constructor ()
      ensures heap == map[] && !fault
    {
      heap, fault := map[], false;
    }

    /** Any address that is not in use, or null. */
    method Malloc(size: nat) returns (a: Address)
      modifies this`heap
      ensures a == NULL ==> heap == old(heap)
      ensures a != NULL ==> a !in old(heap) && a in heap && |heap[a]| == size && heap == old(heap)[a := heap[a]]
    {
      var candidate: int := *;
      if candidate != NULL && candidate !in heap {
        a := candidate;
        heap := heap[a := seq(size, i => '\0')];
      } else {
        a := NULL;
      }
    }

    method Free(a: Address)
      modifies this
      ensures a == NULL ==> heap == old(heap) && fault == old(fault)
      ensures a != NULL && a in old(heap) ==> heap == old(heap) - {a} && fault == old(fault)
      ensures a != NULL && a !in old(heap) ==> heap == old(heap) && fault
    {
      if a != NULL {
        if a in heap {
          heap := heap - {a};
        } else {
          fault := true;
        }
      }
    }

    /** Allocates a block for every size in the record, or none. */
    method AllocMem(rec: DbgRec)
      requires rec.numItems <= rec.items.Length && 0 < rec.items.Length && NULL !in heap
      requires forall i :: 0 <= i < rec.numItems ==> rec.items[i] >= 0
      modifies this, rec`result, rec.items
      ensures fault == old(fault)
      ensures rec.result == Allocated ==>
                && Grown(old(heap), heap, rec.items[..rec.numItems])
                && forall i :: 0 <= i < rec.numItems ==>
                     rec.items[i] != NULL && rec.items[i] in heap && |heap[rec.items[i]]| == old(rec.items[i])
      ensures rec.result != Allocated ==>
                rec.result == ErrorCode && rec.items[0] == DBG_ERROR_MEMORY_ALLOCATION_FAILED && heap == old(heap)
    {
      ghost var before, sizes := heap, rec.items[..];
      var i: int := 0;
      assert Dropped(heap, []) == heap;
      while i < rec.numItems
        invariant 0 <= i <= rec.numItems && fault == old(fault)
        invariant Grown(before, heap, rec.items[..i])
        invariant forall k :: i <= k < rec.numItems ==> rec.items[k] == sizes[k]
        invariant forall k :: 0 <= k < i ==>
                    rec.items[k] != NULL && rec.items[k] in heap && |heap[rec.items[k]]| == sizes[k]
      {
        ghost var after, placed := heap, rec.items[..i];
        var a := Malloc(rec.items[i]);
        rec.items[i] := a;
        assert rec.items[..i] == placed;
        if a == NULL {
          RollBack(rec, i, before);
          return;
        }
        GrowOne(before, after, heap, placed, a);
        assert rec.items[..i + 1] == placed + [a];
        i := i + 1;
      }
      rec.result := Allocated;
    }

    method RollBack(rec: DbgRec, failed: nat, ghost before: Heap)
      requires failed < rec.items.Length && Grown(before, heap, rec.items[..failed])
      modifies this, rec`result, rec.items
      ensures heap == before && fault == old(fault)
      ensures rec.result == ErrorCode && rec.items[0] == DBG_ERROR_MEMORY_ALLOCATION_FAILED
    {
      var i: int := failed - 1;
      while i >= 0
        invariant -1 <= i < failed && fault == old(fault)
        invariant Grown(before, heap, rec.items[..i + 1])
      {
        assert rec.items[..i + 1][..i] == rec.items[..i];
        assert Owned(rec.items[..i + 1], heap);
        Free(rec.items[i]);
        i := i - 1;
      }
      assert Dropped(heap, []) == heap;
      rec.SetErrorCode(DBG_ERROR_MEMORY_ALLOCATION_FAILED);
    }

    /** Frees every block named in the record. */
    method FreeMem(rec: DbgRec, ghost before: Heap)
      requires rec.numItems <= rec.items.Length && 0 < rec.items.Length
      requires Grown(before, heap, rec.items[..rec.numItems])
      modifies this, rec`result, rec.items
      ensures heap == before && fault == old(fault)
      ensures rec.result == ErrorCode && rec.items[0] == DBG_NO_ERROR
    {
      var i := 0;
      while i < rec.numItems
        invariant 0 <= i <= rec.numItems && fault == old(fault)
        invariant Grown(before, heap, rec.items[i..rec.numItems])
      {
        ShrinkFirst(before, heap, rec.items[i..rec.numItems]);
        assert rec.items[i..rec.numItems][1..] == rec.items[i + 1..rec.numItems];
        Free(rec.items[i]);
        i := i + 1;
      }
      assert Dropped(heap, []) == heap;
      rec.SetErrorCode(DBG_NO_ERROR);
    }

    /** The debuggee's end of a shader step: a readback buffer is allocated for what is delivered.
        `got` are the parameters that it finds in the record. */
    method ShaderStep(rec: DbgRec, outcome: Outcome, delivered: Answer)
      returns (ghost buffer: Address, ghost got: seq<int>)
      requires rec.items.Length >= 3 && NULL !in heap && Consistent(outcome, delivered)
      modifies this`heap, rec`result, rec.items
      ensures got == old(rec.items[..]) && (!outcome.Delivers? ==> buffer == NULL)
      ensures if buffer == NULL then heap == old(heap)
              else buffer !in old(heap) && buffer in heap && heap == old(heap)[buffer := heap[buffer]]
      ensures match outcome
              case Fails(code) => rec.result == ErrorCode && rec.items[0] == code
              case Delivers(_, x, y) => rec.result == delivered && rec.items[..3] == [buffer, x, y]
              case Answers(answer) => rec.result == answer
    {
      buffer, got := NULL, rec.items[..];
      match outcome
      case Fails(code) =>
        rec.SetErrorCode(code);
      case Delivers(size, x, y) =>
        var a := Malloc(size);
        buffer := a;
        rec.result := delivered;
        rec.items[0], rec.items[1], rec.items[2] := a, x, y;
      case Answers(answer) =>
        rec.result := answer;
    }
  }
}
