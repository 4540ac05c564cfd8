/** pipe.c: a ring of 512 bytes with two counters that wrap at 2^32. A call runs under
    the pipe's lock until it returns or sleeps; such a stretch is one method here, and
    other processes come in between. */
module Pipe {
  import opened Blocks

  const PIPESIZE: nat := 512

  datatype Turn = Done | Sleeps | Fails

  lemma CounterIndex(k: nat)
    ensures k % WORD_LIMIT % PIPESIZE == k % PIPESIZE
  {
    assert WORD_LIMIT == 0x80_0000 * PIPESIZE;
    var q := k / WORD_LIMIT;
    assert k == q * WORD_LIMIT + k % WORD_LIMIT;
    assert k == (q * 0x80_0000) * PIPESIZE + k % WORD_LIMIT;
    ModShift(k % WORD_LIMIT, q * 0x80_0000);
  }

  lemma ModShift(a: nat, m: nat)
    ensures (m * PIPESIZE + a) % PIPESIZE == a % PIPESIZE
  {
  }

  /** The counters tell how full the pipe is, although they wrap. */
  lemma CountersTell(r: nat, w: nat)
    requires r <= w <= r + PIPESIZE
    ensures w % WORD_LIMIT == r % WORD_LIMIT <==> w == r
    ensures w % WORD_LIMIT == (r % WORD_LIMIT + PIPESIZE) % WORD_LIMIT <==> w == r + PIPESIZE
  {
  }

  lemma NextCounter(k: nat)
    ensures (k % WORD_LIMIT + 1) % WORD_LIMIT == (k + 1) % WORD_LIMIT
  {
  }

  class Pipe {
    const data: array<byte>
    var nread: nat
    var nwrite: nat
    var readopen: bool
    var writeopen: bool
    var readers: set<nat>       // asleep on &nread
    var writers: set<nat>       // asleep on &nwrite
    ghost var written: seq<byte>
    ghost var consumed: seq<byte>

    /** The bytes in the ring. */
    ghost function Contents(): seq<byte>
      requires |consumed| <= |written|
      reads this
    {
      written[|consumed|..]
    }

    /** What was read is a prefix of what was written, and the ring has the rest. */
    ghost predicate Valid()
      reads this, data
    {
      && data.Length == PIPESIZE && consumed <= written && |written| <= |consumed| + PIPESIZE
      && nread == |consumed| % WORD_LIMIT && nwrite == |written| % WORD_LIMIT
      && forall k :: |consumed| <= k < |written| ==> data[k % PIPESIZE] == written[k]
    }

    /** Nobody sleeps in vain: readers only on an empty pipe that may still get bytes,
        writers only on a full one that may still be read. */
    ghost predicate Awake()
      requires |consumed| <= |written|
      reads this
    {
      (readers != {} ==> Contents() == [] && writeopen) && (writers != {} ==> |Contents()| == PIPESIZE && readopen)
    }

    constructor ()
      ensures Valid() && written == [] && consumed == [] && readopen && writeopen && readers == {} && writers == {}
      ensures fresh(data)
    {
      data := new byte[PIPESIZE](_ => 0);
      nread, nwrite, readopen, writeopen, readers, writers := 0, 0, true, true, {}, {};
      written, consumed := [], [];
    }

    /** pipewrite of addr, going on at position i, until it is done or has to sleep. */
    method Write(pid: nat, addr: seq<byte>, i: nat, killed: bool) returns (r: Turn, j: nat)
      requires Valid() && i <= |addr|
      modifies this`nwrite, this`readers, this`writers, this`written, data
      ensures Valid() && i <= j <= |addr| && written == old(written) + addr[i..j]
      ensures r == Done <==> j == |addr|
      ensures r != Done ==> |Contents()| == PIPESIZE
      ensures r == Fails <==> j < |addr| && (!readopen || killed)
      ensures readers == (if r == Fails then old(readers) else {})
      ensures writers == (if r == Sleeps then old(writers) + {pid} else old(writers))
      ensures old(Awake()) ==>
        (Awake() <==> !(old(readers) != {} && (killed || !readopen) && |addr| - i > PIPESIZE))
    {
      j := i;
      while j < |addr|
        invariant i <= j <= |addr| && Valid() && written == old(written) + addr[i..j]
        invariant readers == old(readers) && writers == old(writers)
      {
        CountersTell(|consumed|, |written|);
        if nwrite == (nread + PIPESIZE) % WORD_LIMIT {
          if !readopen || killed { return Fails, j; }
          readers := {};
          writers := writers + {pid};
          return Sleeps, j;
        }
        Store(addr[j]);
        assert addr[i..j] + [addr[j]] == addr[i..j + 1];
        j := j + 1;
      }
      readers := {};
      r := Done;
    }

    /** p->data[p->nwrite++ % PIPESIZE] = b. */
    method Store(b: byte)
      requires Valid() && |written| < |consumed| + PIPESIZE
      modifies this`nwrite, this`written, data
      ensures Valid() && written == old(written) + [b]
    {
      CounterIndex(|written|);
      NextCounter(|written|);
      ghost var w := |written|;
      forall k | |consumed| <= k < w ensures k % PIPESIZE != w % PIPESIZE { Apart(k, w); }
      data[nwrite % PIPESIZE] := b;
      nwrite := (nwrite + 1) % WORD_LIMIT;
      written := written + [b];
    }

    /** piperead of up to n bytes, until it returns or has to sleep. */
    method Read(pid: nat, n: nat, killed: bool) returns (r: Turn, bytes: seq<byte>)
      requires Valid()
      modifies this`nread, this`readers, this`writers, this`consumed
      ensures Valid() && consumed == old(consumed) + bytes
      ensures r == Done <==> old(|Contents()|) > 0 || !writeopen
      ensures r == Done ==> bytes == old(Contents())[..if n < old(|Contents()|) then n else old(|Contents()|)]
      ensures r != Done ==> bytes == [] && (r == Fails <==> killed)
      ensures writers == (if r == Done then {} else old(writers))
      ensures readers == (if r == Sleeps then old(readers) + {pid} else old(readers))
      ensures old(Awake()) ==> Awake()
    {
      bytes := [];
      CountersTell(|consumed|, |written|);
      if nread == nwrite && writeopen {
        if killed { return Fails, []; }
        readers := readers + {pid};
        return Sleeps, [];
      }
      ghost var before := Contents();
      var i := 0;
      while i < n
        invariant 0 <= i <= n && i <= |before| && Valid() && bytes == before[..i] && consumed == old(consumed) + bytes
        invariant readers == old(readers) && written == old(consumed) + before
      {
        CountersTell(|consumed|, |written|);
        if nread == nwrite { break; }
        var b := Fetch();
        assert before[..i] + [before[i]] == before[..i + 1];
        bytes := bytes + [b];
        i := i + 1;
      }
      writers := {};
      r := Done;
    }

    /** p->data[p->nread++ % PIPESIZE]. */
    method Fetch() returns (b: byte)
      requires Valid() && |consumed| < |written|
      modifies this`nread, this`consumed
      ensures Valid() && consumed == old(consumed) + [b] && b == written[old(|consumed|)]
    {
      CounterIndex(|consumed|);
      NextCounter(|consumed|);
      b := data[nread % PIPESIZE];
      nread := (nread + 1) % WORD_LIMIT;
      consumed := consumed + [b];
    }

    /** pipeclose of one end. True: both are closed and the page is freed. */
    method Close(writable: bool) returns (freed: bool)
      requires Valid() && (if writable then writeopen && writers == {} else readopen && readers == {})
      modifies this`readopen, this`writeopen, this`readers, this`writers
      ensures Valid() && readopen == (old(readopen) && writable) && writeopen == (old(writeopen) && !writable)
      ensures readers == (if writable then {} else old(readers)) && writers == (if writable then old(writers) else {})
      ensures freed == (!readopen && !writeopen)
      ensures old(Awake()) ==> Awake()
    {
      if writable {
        writeopen, readers := false, {};
      } else {
        readopen, writers := false, {};
      }
      freed := !readopen && !writeopen;
    }

    /** The pipe as its callers see it. */
    ghost function Q(): Queue
      requires |consumed| <= |written|
      reads this
    {
      Queue(Contents(), readopen, writeopen, readers, writers)
    }

    /** One turn of some call. */
    method TakeTurn(op: Op) returns (out: Outcome)
      requires Valid()
      modifies this, data
      ensures Valid() && (Q(), out) == QueueStep(old(Q()), op)
      ensures written == if op.WriteOp? then old(written) + out.bytes else old(written)
      ensures consumed == if op.ReadOp? then old(consumed) + out.bytes else old(consumed)
    {
      out := Outcome(Fails, []);
      match op
      case WriteOp(pid, addr, at, killed) =>
        if at <= |addr| {
          var r, j := Write(pid, addr, at, killed);
          out := Outcome(r, addr[at..j]);
          assert Contents() == old(Contents()) + addr[at..j];
        }
      case ReadOp(pid, n, killed) =>
        var r, bytes := Read(pid, n, killed);
        out := Outcome(r, bytes);
        assert Contents() == old(Contents())[|bytes|..];
      case CloseOp(writable) =>
        if if writable then writeopen && writers == {} else readopen && readers == {} {
          var freed := Close(writable);
          out := Outcome(Done, []);
        }
    }
  }

  datatype Op =
    | WriteOp(pid: nat, addr: seq<byte>, at: nat, killed: bool)
    | ReadOp(pid: nat, n: nat, killed: bool)
    | CloseOp(writable: bool)

  // ------------------------------------------------------- the pipe as a queue

  /** What the pipe is to its callers: a queue of at most PIPESIZE bytes, two ends that may
      be closed, and the processes asleep on it. */
  datatype Queue = Queue(bytes: seq<byte>, readopen: bool, writeopen: bool, readers: set<nat>, writers: set<nat>)

  /** How a call ended its turn, and the bytes that it moved. */
  datatype Outcome = Outcome(turn: Turn, bytes: seq<byte>)

  function Smaller(a: nat, b: nat): nat {
    if a < b then a else b
  }

  /** A write puts in what there is room for. */
  function WriteStep(q: Queue, op: Op): (Queue, Outcome)
    requires op.WriteOp? && op.at <= |op.addr| && |q.bytes| <= PIPESIZE
  {
    var j := op.at + Smaller(|op.addr| - op.at, PIPESIZE - |q.bytes|);
    var turn := if j == |op.addr| then Done else if !q.readopen || op.killed then Fails else Sleeps;
    (q.(bytes := q.bytes + op.addr[op.at..j], readers := if turn == Fails then q.readers else {},
        writers := if turn == Sleeps then q.writers + {op.pid} else q.writers), Outcome(turn, op.addr[op.at..j]))
  }

  /** A read takes from the front. */
  function ReadStep(q: Queue, op: Op): (Queue, Outcome)
    requires op.ReadOp?
  {
    var m := Smaller(op.n, |q.bytes|);
    if q.bytes != [] || !q.writeopen then (q.(bytes := q.bytes[m..], writers := {}), Outcome(Done, q.bytes[..m]))
    else if op.killed then (q, Outcome(Fails, []))
    else (q.(readers := q.readers + {op.pid}), Outcome(Sleeps, []))
  }

  /** A process that sleeps in a call has that end open. */
  predicate MayClose(q: Queue, writable: bool) {
    if writable then q.writeopen && q.writers == {} else q.readopen && q.readers == {}
  }

  function CloseStep(q: Queue, op: Op): (Queue, Outcome)
    requires op.CloseOp?
  {
    if !MayClose(q, op.writable) then (q, Outcome(Fails, []))
    else if op.writable then (q.(writeopen := false, readers := {}), Outcome(Done, []))
    else (q.(readopen := false, writers := {}), Outcome(Done, []))
  }

  function QueueStep(q: Queue, op: Op): (Queue, Outcome)
    requires |q.bytes| <= PIPESIZE
  {
    match op
    case WriteOp(_, addr, at, _) => if at > |addr| then (q, Outcome(Fails, [])) else WriteStep(q, op)
    case ReadOp(_, _, _) => ReadStep(q, op)
    case CloseOp(_) => CloseStep(q, op)
  }

  /** The queue after some calls, and what the last of them did. */
  function After(ops: seq<Op>): (q: Queue)
    ensures |q.bytes| <= PIPESIZE
  {
    if ops == [] then Queue([], true, true, {}, {}) else QueueStep(After(ops[..|ops| - 1]), ops[|ops| - 1]).0
  }

  function LastOutcome(ops: seq<Op>): Outcome
    requires ops != []
  {
    QueueStep(After(ops[..|ops| - 1]), ops[|ops| - 1]).1
  }

  predicate Counts(op: Op, writes: bool) {
    if writes then op.WriteOp? else op.ReadOp?
  }

  /** All that the writes, or the reads, have moved. */
  function Moved(ops: seq<Op>, writes: bool): seq<byte> {
    if ops == [] then [] else
    var before := Moved(ops[..|ops| - 1], writes);
    if Counts(ops[|ops| - 1], writes) then before + LastOutcome(ops).bytes else before
  }

  /** No byte is lost, made or overtaken. */
  lemma {:induction false} Conserved(ops: seq<Op>)
    ensures Moved(ops, true) == Moved(ops, false) + After(ops).bytes
  {
    if ops != [] {
      var before, op := ops[..|ops| - 1], ops[|ops| - 1];
      Conserved(before);
      var read, q, q', moved := Moved(before, false), After(before).bytes, After(ops).bytes, LastOutcome(ops).bytes;
      if op.WriteOp? {
        WriteConserves(After(before), op);
        assert (read + q) + moved == read + (q + moved);
      } else if op.ReadOp? {
        ReadConserves(After(before), op);
        assert (read + moved) + q' == read + (moved + q');
      }
    }
  }

  lemma WriteConserves(q: Queue, op: Op)
    requires |q.bytes| <= PIPESIZE && op.WriteOp?
    ensures var (q', out) := QueueStep(q, op); q'.bytes == q.bytes + out.bytes
  {
  }

  lemma ReadConserves(q: Queue, op: Op)
    requires |q.bytes| <= PIPESIZE && op.ReadOp?
    ensures var (q', out) := QueueStep(q, op); q.bytes == out.bytes + q'.bytes
  {
    var m := Smaller(op.n, |q.bytes|);
    assert q.bytes == q.bytes[..m] + q.bytes[m..];
  }

  // ---------------------------------------------------------------- sessions

  /** The first n calls have led to q, with these outcomes. */
  datatype Course = Course(ops: seq<Op>, n: nat, q: Queue, outs: seq<Outcome>, got: seq<byte>, put: seq<byte>)

  ghost predicate Right(c: Course) {
    && c.n == |c.outs| <= |c.ops| && c.q == After(c.ops[..c.n])
    && (forall k :: 0 <= k < c.n ==> c.outs[k] == LastOutcome(c.ops[..k + 1]))
    && c.got == Moved(c.ops[..c.n], false) && c.put == Moved(c.ops[..c.n], true)
  }

  /** Right, unfolded only where it is mentioned. */
  ghost predicate OnCourse(c: Course) {
    forall k {:trigger Right(k)} :: k == c ==> Right(k)
  }

  lemma Start(ops: seq<Op>)
    ensures OnCourse(Course(ops, 0, Queue([], true, true, {}, {}), [], [], []))
  {
    assert Right(Course(ops, 0, Queue([], true, true, {}, {}), [], [], []));
  }

  lemma OneMore(c: Course, c': Course, out: Outcome)
    requires OnCourse(c) && c.n < |c.ops| && |c.q.bytes| <= PIPESIZE && (c'.q, out) == QueueStep(c.q, c.ops[c.n])
    requires c'.ops == c.ops && c'.n == c.n + 1 && c'.outs == c.outs + [out]
    requires c'.put == if c.ops[c.n].WriteOp? then c.put + out.bytes else c.put
    requires c'.got == if c.ops[c.n].ReadOp? then c.got + out.bytes else c.got
    ensures OnCourse(c')
  {
    assert Right(c);
    assert c.ops[..c.n + 1][..c.n] == c.ops[..c.n];
    assert Right(c');
  }

  lemma End(c: Course)
    requires OnCourse(c) && c.n == |c.ops|
    ensures |c.outs| == |c.ops| && forall i :: 0 <= i < |c.ops| ==> c.outs[i] == LastOutcome(c.ops[..i + 1])
    ensures c.got == Moved(c.ops, false) && c.put == Moved(c.ops, true) && c.q == After(c.ops)
  {
    assert Right(c);
    assert c.ops[..|c.ops|] == c.ops;
  }

  /** Any calls of any processes on a new pipe, in any order: the ring with its wrapping
      counters is that queue. Each call has the outcome that it has on the queue, so the bytes
      read are a prefix of the bytes written, and at most PIPESIZE bytes are on the way. */
  method Session(ops: seq<Op>) returns (outs: seq<Outcome>, got: seq<byte>, put: seq<byte>)
    ensures |outs| == |ops| && forall i :: 0 <= i < |ops| ==> outs[i] == LastOutcome(ops[..i + 1])
    ensures got == Moved(ops, false) && put == Moved(ops, true)
    ensures got <= put && |put| <= |got| + PIPESIZE
  {
    var p := new Pipe();
    outs, got, put := [], [], [];
    Start(ops);
    for i := 0 to |ops|
      invariant p.Valid() && fresh(p) && fresh(p.data) && p.consumed == got && p.written == put
      invariant OnCourse(Course(ops, i, p.Q(), outs, got, put))
    {
      ghost var c := Course(ops, i, p.Q(), outs, got, put);
      var out := p.TakeTurn(ops[i]);
      outs := outs + [out];
      if ops[i].WriteOp? { put := put + out.bytes; }
      if ops[i].ReadOp? { got := got + out.bytes; }
      OneMore(c, Course(ops, i + 1, p.Q(), outs, got, put), out);
    }
    End(Course(ops, |ops|, p.Q(), outs, got, put));
  }

  /** A killed writer that fills an empty pipe leaves a sleeping reader asleep. */
  method KilledWriter() returns (asleep: set<nat>, bytes: nat)
    ensures asleep == {1} && bytes == PIPESIZE
  {
    var p := new Pipe();
    var r1, none := p.Read(1, 1, false);
    var r2, j := p.Write(2, seq(PIPESIZE + 1, _ => 0), 0, true);
    asleep, bytes := p.readers, j;
  }

  lemma Apart(k: nat, w: nat)
    requires k < w < k + PIPESIZE
    ensures k % PIPESIZE != w % PIPESIZE
  {
  }
}
