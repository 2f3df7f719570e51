/**
 The debugger's end: a shader step copies up to three shader texts into the debuggee, steps, copies
 the result back and frees everything again.
 */
module ShaderStepMemory {
  import opened Wrappers
  import opened GlConstants
  import opened RemoteMemory

  const DBG_TARGET_FRAGMENT_SHADER := 2

  predicate KnownFormat(format: int) {
    format in {GL_FLOAT, GL_INT, GL_UNSIGNED_INT}
  }

  /** The primitive mode that a transform feedback of the mode uses. */
  function BaseMode(mode: int): Option<int> {
    if mode == GL_POINTS then Some(GL_POINTS)
    else if mode in {GL_LINES, GL_LINE_STRIP, GL_LINE_LOOP, GL_LINES_ADJACENCY_EXT, GL_LINE_STRIP_ADJACENCY_EXT} then
      Some(GL_LINES)
    else if mode in {GL_TRIANGLES, GL_QUADS, GL_QUAD_STRIP, GL_TRIANGLE_STRIP, GL_TRIANGLE_FAN, GL_POLYGON,
                     GL_TRIANGLES_ADJACENCY_EXT, GL_TRIANGLE_STRIP_ADJACENCY_EXT, GL_QUAD_MESH_SUN,
                     GL_TRIANGLE_MESH_SUN} then
      Some(GL_TRIANGLES)
    else None
  }

  /** Points are points, all kinds of lines are lines, and all kinds of triangles, quads and polygons are
      triangles. */
  lemma {:induction false} BaseModes(mode: int)
    ensures BaseMode(mode) == Some(0x0) <==> mode == 0x0
    ensures BaseMode(mode) == Some(0x1) <==> 0x1 <= mode <= 0x3 || 0xA <= mode <= 0xB
    ensures BaseMode(mode) == Some(0x4) <==> 0x4 <= mode <= 0x9 || 0xC <= mode <= 0xD || 0x8614 <= mode <= 0x8615
    ensures BaseMode(mode).Some? ==> BaseMode(mode).value in {0x0, 0x1, 0x4}
  {
  }

  ghost predicate TextAt(heap: Heap, a: Address, shader: Option<string>) {
    match shader
    case None => a == NULL
    case Some(s) => a != NULL && a in heap && heap[a] == s + ['\0']
  }

  /** The shader texts stand in the debuggee, each with its terminating zero. */
  ghost predicate Placed(before: Heap, after: Heap, addrs: seq<Address>, shaders: seq<Option<string>>) {
    && |addrs| == |shaders| && Grown(before, after, addrs)
    && forall i :: 0 <= i < |addrs| ==> TextAt(after, addrs[i], shaders[i])
  }

  /** A delivered image is refused, and its buffer is not freed. */
  ghost predicate Refused(outcome: Outcome, format: int) {
    outcome.Delivers? && (outcome.item1 <= 0 || outcome.item2 <= 0 || !KnownFormat(format))
  }

  /** An image is accepted if it has pixels and holds floats or integers. */
  lemma {:induction false} RefusedIff(outcome: Outcome, format: int)
    ensures Refused(outcome, format) <==>
              && outcome.Delivers?
              && !(outcome.item1 > 0 && outcome.item2 > 0 && 0x1404 <= format <= 0x1406)
  {
  }

  /** The shader texts next to a buffer that is not freed. */
  lemma {:induction false} BesideBuffer(before: Heap, placed: Heap, after: Heap, addrs: seq<Address>, buffer: Address)
    requires Grown(before, placed, addrs) && buffer != NULL && buffer !in placed
    requires buffer in after && after == placed[buffer := after[buffer]]
    ensures buffer !in before && Grown(before[buffer := after[buffer]], after, addrs)
  {
    var kept := before[buffer := after[buffer]];
    assert forall x :: x in before ==> x in Dropped(placed, addrs);
    assert buffer !in addrs;
    forall x ensures x in Dropped(after, addrs) <==> x in kept {
      if x != buffer {
        assert x in Dropped(placed, addrs) <==> x in before;
      }
    }
    forall x | x in kept ensures Dropped(after, addrs)[x] == kept[x] {
      if x != buffer {
        assert Dropped(placed, addrs)[x] == before[x];
      }
    }
    assert Dropped(after, addrs) == kept;
  }

  lemma {:induction false} Dropping(before: Heap, after: Heap, a: Address)
    requires NULL !in before && a != NULL && a !in before && a in after && after == before[a := after[a]]
    ensures Grown(before, after, [a])
  {
    assert Dropped(after, [a]) == before;
  }

  class ProgramControl {
    const debuggee: Debuggee
    const rec: DbgRec

    ghost predicate Valid()
      reads debuggee
    {
      8 <= rec.items.Length && NULL !in debuggee.heap
    }

    constructor (d: Debuggee, r: DbgRec)
      requires 8 <= r.items.Length && NULL !in d.heap
      ensures Valid() && debuggee == d && rec == r
    {
      debuggee, rec := d, r;
    }

    method DbgCommandFreeMem(addresses: seq<Address>, ghost before: Heap) returns (error: PcError)
      requires Valid() && |addresses| <= rec.items.Length && Grown(before, debuggee.heap, addresses)
      modifies debuggee, rec, rec.items
      ensures Valid() && error == PceNone && debuggee.heap == before && debuggee.fault == old(debuggee.fault)
    {
      rec.numItems := |addresses|;
      var i := 0;
      while i < |addresses|
        invariant 0 <= i <= |addresses| && rec.numItems == |addresses|
        invariant rec.items[..i] == addresses[..i]
        invariant debuggee.heap == old(debuggee.heap) && debuggee.fault == old(debuggee.fault)
      {
        rec.items[i] := addresses[i];
        i := i + 1;
      }
      assert rec.items[..rec.numItems] == addresses;
      debuggee.FreeMem(rec, before);
      error := rec.CheckError();
    }

    /** The blocks have the sizes that were asked for. */
    ghost predicate Sized(addresses: seq<Address>, sizes: seq<nat>)
      reads debuggee
    {
      && |addresses| == |sizes|
      && forall i :: 0 <= i < |sizes| ==>
           addresses[i] != NULL && addresses[i] in debuggee.heap && |debuggee.heap[addresses[i]]| == sizes[i]
    }

    /** Allocates a block for every size, or none. */
    method DbgCommandAllocMem(sizes: seq<nat>) returns (error: PcError, addresses: seq<Address>)
      requires Valid() && |sizes| <= rec.items.Length
      modifies debuggee, rec, rec.items
      ensures Valid() && debuggee.fault == old(debuggee.fault)
      ensures error != PceNone ==> debuggee.heap == old(debuggee.heap)
      ensures error == PceNone ==> Grown(old(debuggee.heap), debuggee.heap, addresses) && Sized(addresses, sizes)
      ensures error == PceNone ==>
                |addresses| == |sizes|
                && forall i :: 0 <= i < |sizes| ==>
                     addresses[i] in debuggee.heap && |debuggee.heap[addresses[i]]| == sizes[i]
    {
      addresses := [];
      rec.numItems := |sizes|;
      var i := 0;
      while i < |sizes|
        invariant 0 <= i <= |sizes| && rec.numItems == |sizes|
        invariant forall k :: 0 <= k < i ==> rec.items[k] == sizes[k]
        invariant debuggee.heap == old(debuggee.heap) && debuggee.fault == old(debuggee.fault)
      {
        rec.items[i] := sizes[i];
        i := i + 1;
      }
      debuggee.AllocMem(rec);
      if rec.result == Allocated {
        addresses := rec.items[..rec.numItems];
        error := PceNone;
      } else {
        error := rec.CheckError();
      }
    }

    /** Writes into a live block of the debuggee, through the debugging interface. */
    method CpyToProcess(address: Address, text: string)
      requires Valid() && address in debuggee.heap && |text| <= |debuggee.heap[address]|
      modifies debuggee
      ensures Valid() && debuggee.fault == old(debuggee.fault)
      ensures debuggee.heap == old(debuggee.heap)[address := text + old(debuggee.heap[address])[|text|..]]
    {
      debuggee.heap := debuggee.heap[address := text + debuggee.heap[address][|text|..]];
    }

    /** Allocates and copies the shader texts; on an error what was allocated is freed again. */
    method SendShaders(shaders: seq<Option<string>>) returns (error: PcError, addr: seq<Address>)
      requires Valid() && |shaders| == 3
      modifies debuggee, rec, rec.items
      ensures Valid() && debuggee.fault == old(debuggee.fault)
      ensures error == PceNone ==> Placed(old(debuggee.heap), debuggee.heap, addr, shaders)
      ensures error == PceNone ==>
                forall i :: 0 <= i < 3 ==>
                  if shaders[i].None? then addr[i] == NULL
                  else addr[i] !in old(debuggee.heap) && addr[i] in debuggee.heap
                       && debuggee.heap[addr[i]] == shaders[i].value + ['\0']
      ensures forall a :: a in old(debuggee.heap) ==> a in debuggee.heap && debuggee.heap[a] == old(debuggee.heap[a])
      ensures error != PceNone ==> debuggee.heap == old(debuggee.heap)
    {
      ghost var before := debuggee.heap;
      addr, error := [], PceNone;
      assert Dropped(before, []) == before;
      var i := 0;
      while i < 3
        invariant 0 <= i <= 3 && Valid() && error == PceNone && debuggee.fault == old(debuggee.fault)
        invariant Placed(before, debuggee.heap, addr, shaders[..i])
      {
        ghost var after := debuggee.heap;
        assert shaders[..i + 1] == shaders[..i] + [shaders[i]];
        if shaders[i].Some? {
          var text := shaders[i].value + ['\0'];
          var blocks;
          error, blocks := DbgCommandAllocMem([|text|]);
          if error != PceNone {
            var ignored := DbgCommandFreeMem(addr, before);
            return;
          }
          var a := blocks[0];
          CpyToProcess(a, text);
          addr := addr + [a];
        } else {
          addr := addr + [NULL];
        }
        i := i + 1;
      }
      assert shaders[..3] == shaders;
    }

    /** One step of a fragment shader and its readback. `buffer` is the block that the debuggee
        delivered, or null. */
    method DbgCommandShaderStepFragment(addr: seq<Address>, numComponents: int, format: int, outcome: Outcome)
      returns (error: PcError, ghost buffer: Address, ghost got: seq<int>)
      requires Valid() && |addr| == 3 && Consistent(outcome, FragmentData)
      modifies debuggee, rec, rec.items
      ensures Valid() && debuggee.fault == old(debuggee.fault)
      ensures |got| >= 6 && got[..6] == addr + [DBG_TARGET_FRAGMENT_SHADER, numComponents, format]
      ensures buffer != NULL ==> outcome.Delivers? && buffer !in old(debuggee.heap)
      ensures if buffer != NULL && Refused(outcome, format)
              then buffer in debuggee.heap && debuggee.heap == old(debuggee.heap)[buffer := debuggee.heap[buffer]]
              else debuggee.heap == old(debuggee.heap)
      ensures error == PceNone <==> buffer != NULL && !Refused(outcome, format)
    {
      ghost var before := debuggee.heap;
      rec.items[0], rec.items[1], rec.items[2] := addr[0], addr[1], addr[2];
      rec.items[3], rec.items[4], rec.items[5] := DBG_TARGET_FRAGMENT_SHADER, numComponents, format;
      buffer, got := debuggee.ShaderStep(rec, outcome, FragmentData);
      error := rec.CheckError();
      if error == PceNone {
        if rec.result == FragmentData {
          var block, width, height := rec.items[0], rec.items[1], rec.items[2];
          if block == NULL || width <= 0 || height <= 0 {
            error := PceDbgInvalidValue;
          } else {
            if !KnownFormat(format) {
              error := PceDbgInvalidValue;
              return;
            }
            Dropping(before, debuggee.heap, block);
            error := DbgCommandFreeMem([block], before);
          }
        } else {
          error := PceDbgInvalidValue;
        }
      }
    }

    method DbgCommandShaderStepVertex(addr: seq<Address>, target: int, mode: int, forcePoints: int, numFloats: int,
                                      outcome: Outcome)
      returns (error: PcError, ghost buffer: Address, ghost got: seq<int>)
      requires Valid() && |addr| == 3 && Consistent(outcome, VertexData)
      modifies debuggee, rec, rec.items
      ensures Valid() && debuggee.fault == old(debuggee.fault) && debuggee.heap == old(debuggee.heap)
      ensures |got| >= 7 && got[..7] == addr + [target, mode, forcePoints, numFloats]
      ensures error == PceNone <==> outcome.Delivers?
    {
      ghost var before := debuggee.heap;
      rec.items[0], rec.items[1], rec.items[2] := addr[0], addr[1], addr[2];
      rec.items[3], rec.items[4], rec.items[5], rec.items[6] := target, mode, forcePoints, numFloats;
      buffer, got := debuggee.ShaderStep(rec, outcome, VertexData);
      error := rec.CheckError();
      if error == PceNone {
        if rec.result == VertexData {
          var block := rec.items[0];
          if block == NULL {
            assert Dropped(before, []) == before;
            GrowNull(before, before, []);
            assert [] + [NULL] == [NULL];
          } else {
            Dropping(before, debuggee.heap, block);
          }
          error := DbgCommandFreeMem([block], before);
        } else {
          error := PceDbgInvalidValue;
        }
      }
    }

    /** A step of a fragment shader. What is live afterwards is what was live before, except for the
        buffer of a refused image. `seen` is the heap and `got` the parameters that the step saw. */
    method ShaderStepFragment(shaders: seq<Option<string>>, numComponents: int, format: int, outcome: Outcome)
      returns (error: PcError, ghost stepped: bool, ghost buffer: Address, ghost seen: Heap, ghost got: seq<int>)
      requires Valid() && |shaders| == 3 && Consistent(outcome, FragmentData)
      modifies debuggee, rec, rec.items
      ensures Valid() && debuggee.fault == old(debuggee.fault)
      ensures stepped ==>
                && |got| >= 6 && got[3..6] == [DBG_TARGET_FRAGMENT_SHADER, numComponents, format]
                && Placed(old(debuggee.heap), seen, got[..3], shaders)
      ensures buffer != NULL ==> stepped && outcome.Delivers? && buffer !in old(debuggee.heap)
      ensures if buffer != NULL && Refused(outcome, format)
              then buffer in debuggee.heap && debuggee.heap == old(debuggee.heap)[buffer := debuggee.heap[buffer]]
              else debuggee.heap == old(debuggee.heap)
      ensures error == PceNone <==> buffer != NULL && !Refused(outcome, format)
    {
      ghost var before := debuggee.heap;
      var addr;
      stepped, buffer, seen, got := false, NULL, before, [];
      error, addr := SendShaders(shaders);
      if error != PceNone {
        return;
      }
      stepped, seen := true, debuggee.heap;
      error, buffer, got := DbgCommandShaderStepFragment(addr, numComponents, format, outcome);
      assert got[..3] == got[..6][..3] == addr && got[3..6] == got[..6][3..];
      ghost var kept: Heap := before;
      if buffer != NULL && Refused(outcome, format) {
        kept := before[buffer := debuggee.heap[buffer]];
        BesideBuffer(before, seen, debuggee.heap, addr, buffer);
      }
      if error != PceNone {
        var ignored := DbgCommandFreeMem(addr, kept);
        return;
      }
      error := DbgCommandFreeMem(addr, kept);
    }

    /** A step of a vertex or geometry shader. What is live afterwards is what was live before, unless
        the primitive mode is unknown: then the shader texts are left behind. */
    method ShaderStepVertex(shaders: seq<Option<string>>, target: int, primitiveMode: int, forcePoints: int,
                            numFloats: int, outcome: Outcome)
      returns (error: PcError, ghost sent: bool, ghost seen: Heap, ghost got: seq<int>)
      requires Valid() && |shaders| == 3 && Consistent(outcome, VertexData)
      modifies debuggee, rec, rec.items
      ensures Valid() && debuggee.fault == old(debuggee.fault)
      ensures sent && BaseMode(primitiveMode).Some? ==>
                && |got| >= 7 && got[3..7] == [target, BaseMode(primitiveMode).value, forcePoints, numFloats]
                && Placed(old(debuggee.heap), seen, got[..3], shaders)
      ensures sent ==> exists addr :: Placed(old(debuggee.heap), seen, addr, shaders)
      ensures debuggee.heap == if sent && BaseMode(primitiveMode).None? then seen else old(debuggee.heap)
      ensures error == PceNone <==> sent && BaseMode(primitiveMode).Some? && outcome.Delivers?
    {
      ghost var before := debuggee.heap;
      var addr;
      sent, seen, got := false, before, [];
      error, addr := SendShaders(shaders);
      if error != PceNone {
        return;
      }
      sent, seen := true, debuggee.heap;
      if BaseMode(primitiveMode).None? {
        error := PceDbgInvalidValue;
        return;
      }
      ghost var buffer;
      error, buffer, got := DbgCommandShaderStepVertex(addr, target, BaseMode(primitiveMode).value, forcePoints,
        numFloats, outcome);
      assert got[..3] == got[..7][..3] == addr && got[3..7] == got[..7][3..];
      if error != PceNone {
        var ignored := DbgCommandFreeMem(addr, before);
        return;
      }
      error := DbgCommandFreeMem(addr, before);
    }
  }
}
