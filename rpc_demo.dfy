/** Start-up of the RPC demo application: the static callset table, the
    sizing of the four RPC buffers from it, their allocation from the kernel
    heap, the set-up of the ProtoRpc object, and the boot sequence that hands
    that object to the TCP RPC server. */
module RpcDemo {

  /** Zephyr's ENOMEM error number; rpc_init returns its negation. */
  const ENOMEM: int := 12

  /** rpc_init asks the heap for exactly this many buffers. */
  const AllocationCount: nat := 4

  /** One row of the callset table: the callset id and the largest encoded
      size of that callset's messages (the generated `*_size` constant).
      The resolver and the field descriptor of a row are not used by the
      start-up code and are not part of the model. */
  datatype CallsetEntry = CallsetEntry(id: nat, size: nat)

  /** The application's table: TestRpc as callset 1, SystemRpc as callset 2. */
  function CallsetTable(testSize: nat, systemSize: nat): seq<CallsetEntry>
  {
    [CallsetEntry(1, testSize), CallsetEntry(2, systemSize)]
  }

  /** The largest `size` in the table, folded from the left the way the
      start-up loop scans it: 0 for an empty table, replaced only by a
      strictly larger entry. */
  function MaxSize(s: seq<CallsetEntry>): nat
    decreases |s|
  {
    if s == [] then 0
    else
      var m := MaxSize(s[..|s| - 1]);
      if s[|s| - 1].size > m then s[|s| - 1].size else m
  }

  /** No entry of the table is larger than MaxSize. */
  lemma {:induction false} MaxSizeIsUpperBound(s: seq<CallsetEntry>)
    ensures forall k :: 0 <= k < |s| ==> s[k].size <= MaxSize(s)
  {
    if s != [] {
      var init := s[..|s| - 1];
      MaxSizeIsUpperBound(init);
      assert forall k :: 0 <= k < |init| ==> init[k] == s[k];
    }
  }

  /** MaxSize is 0 for the empty table and otherwise the size of some entry. */
  lemma {:induction false} MaxSizeIsAttained(s: seq<CallsetEntry>)
    ensures s == [] ==> MaxSize(s) == 0
    ensures s != [] ==> exists k :: 0 <= k < |s| && s[k].size == MaxSize(s)
  {
    if s != [] {
      var init := s[..|s| - 1];
      if init != [] && s[|s| - 1].size <= MaxSize(init) {
        MaxSizeIsAttained(init);
        var k :| 0 <= k < |init| && init[k].size == MaxSize(init);
        assert s[k].size == MaxSize(s);
      } else {
        assert s[|s| - 1].size == MaxSize(s);
      }
    }
  }

  /** For the application's two-entry table the maximum is the larger of the
      two generated sizes. */
  lemma CallsetTableMax(testSize: nat, systemSize: nat)
    ensures MaxSize(CallsetTable(testSize, systemSize))
            == if systemSize > testSize then systemSize else testSize
  {
    var t := CallsetTable(testSize, systemSize);
    assert t[..1][..0] == [];
    assert t[..1] == [CallsetEntry(1, testSize)];
    assert MaxSize(t[..1]) == testSize;
    assert t[..|t| - 1] == t[..1];
  }

  /** The scan at the head of rpc_init: the maximum `size` over the table. */
  method MaxCallsetSize(table: array<CallsetEntry>) returns (m: nat)
    ensures m == MaxSize(table[..])
    ensures forall k :: 0 <= k < table.Length ==> table[k].size <= m
    ensures table.Length == 0 ==> m == 0
    ensures table.Length > 0 ==> exists k :: 0 <= k < table.Length && table[k].size == m
  {
    m := 0;
    var k := 0;
    while k < table.Length
      invariant 0 <= k <= table.Length
      invariant m == MaxSize(table[..k])
    {
      assert table[..k + 1][..k] == table[..k];
      if table[k].size > m {
        m := table[k].size;
      }
      k := k + 1;
    }
    assert table[..table.Length] == table[..];
    MaxSizeIsUpperBound(table[..]);
    MaxSizeIsAttained(table[..]);
  }

  /** Whether the heap grants the i-th request of a script of answers; a
      request past the end of the script is refused. */
  predicate Granted(answers: seq<bool>, i: nat)
  {
    i < |answers| && answers[i]
  }

  /** The script left after one request has consumed its answer. */
  function Rest(answers: seq<bool>): seq<bool>
  {
    if answers == [] then [] else answers[1..]
  }

  /** Consuming one answer shifts the script by one request. */
  lemma GrantedRest(answers: seq<bool>, i: nat)
    ensures Granted(Rest(answers), i) == Granted(answers, i + 1)
  {
  }

  /** Whether the heap grants all four requests of rpc_init. */
  predicate AllGranted(answers: seq<bool>)
  {
    Granted(answers, 0) && Granted(answers, 1) && Granted(answers, 2) && Granted(answers, 3)
  }

  /** How many requests rpc_init makes: it stops at the first refusal. */
  function RequestCount(answers: seq<bool>): (n: nat)
    ensures 1 <= n <= AllocationCount
    ensures forall i :: 0 <= i < n - 1 ==> Granted(answers, i)
    ensures n < AllocationCount ==> !Granted(answers, n - 1)
    ensures n == AllocationCount && Granted(answers, n - 1) <==> AllGranted(answers)
  {
    if !Granted(answers, 0) then 1
    else if !Granted(answers, 1) then 2
    else if !Granted(answers, 2) then 3
    else 4
  }

  /** The sizes rpc_init requests, in order: call frame, reply frame, callset
      call scratch, callset reply scratch. */
  function PlannedSizes(headerSize: nat, maxSize: nat): seq<nat>
  {
    [headerSize + maxSize, headerSize + maxSize, maxSize, maxSize]
  }

  /** A pointer returned by one k_malloc request: a buffer of the requested
      size if the request was granted, NULL otherwise. */
  ghost predicate AllocatedAs(p: array?<bv8>, granted: bool, size: nat)
  {
    if granted then p != null && p.Length == size else p == null
  }

  /** The kernel heap behind k_malloc. Whether a request succeeds is decided
      outside the application, so the heap is given the script of its answers
      (true grants, false returns NULL) and logs every request it receives. */
  class KernelHeap {
    var answers: seq<bool>
    var requests: seq<nat>

    constructor (answers: seq<bool>)
      ensures this.answers == answers && requests == []
    {
      this.answers := answers;
      requests := [];
    }

    /** k_malloc: a fresh buffer of `size` bytes, or null when refused. */
    method Malloc(size: nat) returns (p: array?<bv8>)
      modifies this
      ensures requests == old(requests) + [size]
      ensures answers == Rest(old(answers))
      ensures AllocatedAs(p, Granted(old(answers), 0), size)
      ensures p != null ==> fresh(p)
    {
      requests := requests + [size];
      if answers != [] && answers[0] {
        p := new bv8[size];
      } else {
        p := null;
      }
      if answers != [] {
        answers := answers[1..];
      }
    }
  }

  /** The ProtoRpc object: where the RPC runtime finds its buffers and the
      callset table. Statically allocated, so every field starts zeroed. */
  class ProtoRpc {
    var callFrame: array?<bv8>
    var replyFrame: array?<bv8>
    var callsets: array?<CallsetEntry>
    var callsetCallBuf: array?<bv8>
    var callsetCallBufSize: nat
    var callsetReplyBuf: array?<bv8>
    var callsetReplyBufSize: nat
    var numCallsets: nat

    ghost predicate Zeroed()
      reads this
    {
      callFrame == null && replyFrame == null && callsets == null &&
      callsetCallBuf == null && callsetCallBufSize == 0 &&
      callsetReplyBuf == null && callsetReplyBufSize == 0 && numCallsets == 0
    }

    constructor ()
      ensures Zeroed()
    {
      callFrame, replyFrame, callsets := null, null, null;
      callsetCallBuf, callsetCallBufSize := null, 0;
      callsetReplyBuf, callsetReplyBufSize := null, 0;
      numCallsets := 0;
    }
  }

  /** The application's static state: the callset table, the four buffer
      pointers, the rpc object and the object the RPC server was started
      with. `headerSize` stands for ProtoRpcHeader_size. */
  class RpcDemoApp {
    const headerSize: nat
    const callsets: array<CallsetEntry>
    const rpc: ProtoRpc
    var rpcCallFrame: array?<bv8>
    var rpcReplyFrame: array?<bv8>
    var rpcCallsetCallBuf: array?<bv8>
    var rpcCallsetReplyBuf: array?<bv8>
    var server: ProtoRpc?

    /** The state the application boots in: null pointers, a zeroed rpc
        object and no server yet. */
    ghost predicate Pristine()
      reads this, rpc
    {
      rpcCallFrame == null && rpcReplyFrame == null &&
      rpcCallsetCallBuf == null && rpcCallsetReplyBuf == null &&
      rpc.Zeroed() && server == null
    }

    constructor (headerSize: nat, testSize: nat, systemSize: nat)
      ensures this.headerSize == headerSize
      ensures callsets[..] == CallsetTable(testSize, systemSize)
      ensures Pristine() && fresh(rpc) && fresh(callsets)
    {
      this.headerSize := headerSize;
      callsets := new CallsetEntry[2] [CallsetEntry(1, testSize), CallsetEntry(2, systemSize)];
      rpc := new ProtoRpc();
      rpcCallFrame, rpcReplyFrame := null, null;
      rpcCallsetCallBuf, rpcCallsetReplyBuf := null, null;
      server := null;
    }

    /** The rpc object as rpc_init leaves it on success: it holds the four
        buffers, the table and the sizes, and a frame of any callset fits
        every buffer. */
    ghost predicate RpcSetUp()
      reads this, rpc, callsets
    {
      rpc.callFrame == rpcCallFrame && rpc.replyFrame == rpcReplyFrame &&
      rpc.callsetCallBuf == rpcCallsetCallBuf && rpc.callsetReplyBuf == rpcCallsetReplyBuf &&
      rpc.callsets == callsets && rpc.numCallsets == callsets.Length &&
      rpc.callsetCallBufSize == MaxSize(callsets[..]) &&
      rpc.callsetReplyBufSize == MaxSize(callsets[..]) &&
      rpc.callFrame != null && rpc.replyFrame != null &&
      rpc.callsetCallBuf != null && rpc.callsetReplyBuf != null &&
      forall k :: 0 <= k < callsets.Length ==>
        headerSize + callsets[k].size <= rpc.callFrame.Length &&
        headerSize + callsets[k].size <= rpc.replyFrame.Length &&
        callsets[k].size <= rpc.callsetCallBuf.Length &&
        callsets[k].size <= rpc.callsetReplyBuf.Length
    }

    /** The four buffer pointers after rpc_init's allocations, given the
        heap's answers and the largest callset size: each request is made in
        turn, the refused one is left NULL and the later ones keep the value
        they had before (`p0` .. `p3`). */
    ghost predicate BuffersAfter(answers: seq<bool>, maxSize: nat,
                                 p0: array?<bv8>, p1: array?<bv8>, p2: array?<bv8>, p3: array?<bv8>)
      reads this
    {
      var n := RequestCount(answers);
      AllocatedAs(rpcCallFrame, Granted(answers, 0), headerSize + maxSize) &&
      (if n > 1 then AllocatedAs(rpcReplyFrame, Granted(answers, 1), headerSize + maxSize)
       else rpcReplyFrame == p1) &&
      (if n > 2 then AllocatedAs(rpcCallsetCallBuf, Granted(answers, 2), maxSize)
       else rpcCallsetCallBuf == p2) &&
      (if n > 3 then AllocatedAs(rpcCallsetReplyBuf, Granted(answers, 3), maxSize)
       else rpcCallsetReplyBuf == p3)
    }

    /** The four k_malloc calls of rpc_init, in order, stopping at the first
        refusal. */
    method AllocateBuffers(heap: KernelHeap, maxCallsetSize: nat) returns (ok: bool)
      modifies this, heap
      ensures ok <==> AllGranted(old(heap.answers))
      ensures heap.requests == old(heap.requests)
        + PlannedSizes(headerSize, maxCallsetSize)[..RequestCount(old(heap.answers))]
      ensures server == old(server)
      ensures BuffersAfter(old(heap.answers), maxCallsetSize, old(rpcCallFrame),
                           old(rpcReplyFrame), old(rpcCallsetCallBuf), old(rpcCallsetReplyBuf))
      ensures rpcCallFrame != null ==> fresh(rpcCallFrame)
      ensures rpcReplyFrame != old(rpcReplyFrame) && rpcReplyFrame != null ==> fresh(rpcReplyFrame)
      ensures rpcCallsetCallBuf != old(rpcCallsetCallBuf) && rpcCallsetCallBuf != null ==> fresh(rpcCallsetCallBuf)
      ensures rpcCallsetReplyBuf != old(rpcCallsetReplyBuf) && rpcCallsetReplyBuf != null ==> fresh(rpcCallsetReplyBuf)
    {
      ghost var answers := heap.answers;
      ghost var requests := heap.requests;
      ghost var sizes := PlannedSizes(headerSize, maxCallsetSize);
      GrantedRest(answers, 0);
      GrantedRest(Rest(answers), 0);
      GrantedRest(Rest(Rest(answers)), 0);
      GrantedRest(answers, 1);
      GrantedRest(answers, 2);

      rpcCallFrame := heap.Malloc(headerSize + maxCallsetSize);
      if rpcCallFrame == null {
        assert heap.requests == requests + sizes[..1];
        return false;
      }

      rpcReplyFrame := heap.Malloc(headerSize + maxCallsetSize);
      if rpcReplyFrame == null {
        assert heap.requests == requests + sizes[..2];
        return false;
      }

      rpcCallsetCallBuf := heap.Malloc(maxCallsetSize);
      if rpcCallsetCallBuf == null {
        assert heap.requests == requests + sizes[..3];
        return false;
      }

      rpcCallsetReplyBuf := heap.Malloc(maxCallsetSize);
      assert heap.requests == requests + sizes[..4];
      return rpcCallsetReplyBuf != null;
    }

    /** rpc_init: size the buffers from the table, allocate them in order
        and fail fast with -ENOMEM on the first refusal, then fill in the rpc
        object. */
    method RpcInit(heap: KernelHeap) returns (ret: int)
      modifies this, rpc, heap
      ensures callsets[..] == old(callsets[..]) && server == old(server)
      ensures heap.requests == old(heap.requests)
        + PlannedSizes(headerSize, MaxSize(callsets[..]))[..RequestCount(old(heap.answers))]
      ensures ret == 0 || ret == -ENOMEM
      ensures ret == 0 <==> AllGranted(old(heap.answers))
      ensures BuffersAfter(old(heap.answers), MaxSize(callsets[..]), old(rpcCallFrame),
                           old(rpcReplyFrame), old(rpcCallsetCallBuf), old(rpcCallsetReplyBuf))
      ensures rpcCallFrame != null ==> fresh(rpcCallFrame)
      ensures rpcReplyFrame != old(rpcReplyFrame) && rpcReplyFrame != null ==> fresh(rpcReplyFrame)
      ensures rpcCallsetCallBuf != old(rpcCallsetCallBuf) && rpcCallsetCallBuf != null ==> fresh(rpcCallsetCallBuf)
      ensures rpcCallsetReplyBuf != old(rpcCallsetReplyBuf) && rpcCallsetReplyBuf != null ==> fresh(rpcCallsetReplyBuf)
      // on failure the rpc object is not assigned at all
      ensures ret != 0 ==> unchanged(rpc)
      // on success the rpc object is set up, with buffers every callset fits
      ensures ret == 0 ==> RpcSetUp()
    {
      var maxCallsetSize := MaxCallsetSize(callsets);

      var ok := AllocateBuffers(heap, maxCallsetSize);
      if !ok {
        return -ENOMEM;
      }

      rpc.callFrame := rpcCallFrame;
      rpc.replyFrame := rpcReplyFrame;
      rpc.callsets := callsets;
      rpc.callsetCallBuf := rpcCallsetCallBuf;
      rpc.callsetCallBufSize := maxCallsetSize;
      rpc.callsetReplyBuf := rpcCallsetReplyBuf;
      rpc.callsetReplyBufSize := maxCallsetSize;
      rpc.numCallsets := callsets.Length;
      return 0;
    }

    /** The boot sequence of main: stop if the settings store cannot be
        initialised; otherwise bring up Wi-Fi (not modelled), run rpc_init
        and start the RPC server with the rpc object, whatever rpc_init
        returned. */
    method Start(heap: KernelHeap, nvParmsInitRet: int)
      requires Pristine()
      modifies this, rpc, heap
      ensures nvParmsInitRet < 0 ==> server == null && heap.requests == old(heap.requests)
      // stopping early leaves the application as it booted
      ensures nvParmsInitRet < 0 ==> Pristine()
      ensures nvParmsInitRet >= 0 ==> server == rpc
      ensures nvParmsInitRet >= 0 ==>
        heap.requests == old(heap.requests)
          + PlannedSizes(headerSize, MaxSize(callsets[..]))[..RequestCount(old(heap.answers))]
      // the server is started even with an rpc object that rpc_init left zeroed
      ensures nvParmsInitRet >= 0 ==> (rpc.Zeroed() <==> !AllGranted(old(heap.answers)))
      // when every allocation is granted the server gets a fully set-up rpc
      ensures nvParmsInitRet >= 0 && AllGranted(old(heap.answers)) ==> RpcSetUp()
    {
      if nvParmsInitRet < 0 {
        return;
      }
      var _ := RpcInit(heap);
      server := rpc;
    }
  }
}
