/** The ring buffer of code/device/ioqueue.c and the pipes of code/shell/pipe.c on top of it. */
module IoQueues {
  const BUFSIZE: nat := 2048

  type Pos = x: int | 0 <= x < BUFSIZE

  function NextPos(p: Pos): (q: Pos) { (p + 1) % BUFSIZE }

  /** Position `k` steps after `p`. */
  function Ahead(p: Pos, k: nat): (q: Pos) { (p + k) % BUFSIZE }

  /** ioq_length: how many steps lead from tail to head. */
  function Length(head: Pos, tail: Pos): (n: nat)
    ensures n < BUFSIZE && Ahead(tail, n) == head
  {
    if head >= tail then head - tail else BUFSIZE - (tail - head)
  }

  /** Fewer steps than that lead elsewhere, so it is the only length below the buffer size. */
  lemma LengthUnique(head: Pos, tail: Pos, n: nat)
    requires n < BUFSIZE && Ahead(tail, n) == head
    ensures n == Length(head, tail)
  {
  }

  /** The bytes from tail up to head, across the wraparound. */
  ghost function Queue(buf: seq<char>, head: Pos, tail: Pos): (q: seq<char>)
    requires |buf| == BUFSIZE
    ensures |q| == Length(head, tail)
  {
    seq(Length(head, tail), k requires 0 <= k < Length(head, tail) => buf[Ahead(tail, k)])
  }

  /** Writing at head and moving it appends one byte. */
  lemma PutAppends(buf: seq<char>, head: Pos, tail: Pos, c: char)
    requires |buf| == BUFSIZE && NextPos(head) != tail
    ensures Queue(buf[head := c], NextPos(head), tail) == Queue(buf, head, tail) + [c]
  {
  }

  /** Moving tail removes the first byte. */
  lemma GetRemoves(buf: seq<char>, head: Pos, tail: Pos)
    requires |buf| == BUFSIZE && head != tail
    ensures Queue(buf, head, tail) == [buf[tail]] + Queue(buf, head, NextPos(tail))
  {
    var n := Length(head, tail);
    assert Length(head, NextPos(tail)) == n - 1;
    forall k | 0 <= k < n - 1 ensures Ahead(NextPos(tail), k) == Ahead(tail, k + 1) {
    }
  }

  class IoQueue {
    const buf: array<char>
    var head: Pos
    var tail: Pos

    ghost predicate Valid()
      reads this
    {
      buf.Length == BUFSIZE
    }

    /** What is in the queue, oldest first. */
    ghost function Contents(): (q: seq<char>)
      requires Valid()
      reads this, buf
      ensures |q| < BUFSIZE
    {
      Queue(buf[..], head, tail)
    }

    /** ioqueue_init on zeroed memory: the source sets head only. */
    constructor ()
      ensures Valid() && Contents() == [] && fresh(buf)
    {
      buf := new char[BUFSIZE](_ => '\0');
      head, tail := 0, 0;
    }

    /** ioq_full: one slot always stays unused. */
    method Full() returns (r: bool)
      requires Valid()
      ensures r <==> |Contents()| == BUFSIZE - 1
    {
      r := NextPos(head) == tail;
    }

    method Empty() returns (r: bool)
      requires Valid()
      ensures r <==> Contents() == []
    {
      r := head == tail;
    }

    /** ioq_length. */
    method CurrentLength() returns (n: nat)
      requires Valid()
      ensures n == |Contents()|
    {
      n := Length(head, tail);
    }

    /** ioq_putchar past its waiting loop. */
    method Put(c: char)
      requires Valid() && |Contents()| < BUFSIZE - 1
      modifies `head, buf
      ensures Contents() == old(Contents()) + [c]
    {
      PutAppends(buf[..], head, tail, c);
      ghost var was := buf[..];
      buf[head] := c;
      assert buf[..] == was[head := c];
      head := NextPos(head);
    }

    /** ioq_getchar past its waiting loop. */
    method Get() returns (c: char)
      requires Valid() && Contents() != []
      modifies `tail
      ensures old(Contents()) == [c] + Contents()
    {
      GetRemoves(buf[..], head, tail);
      c := buf[tail];
      tail := NextPos(tail);
    }

    /** pipe_read: takes what is there, up to `count`; it never calls ioq_getchar on an empty queue. */
    method PipeRead(count: nat) returns (out: seq<char>)
      requires Valid()
      modifies `tail
      ensures |out| == if |old(Contents())| > count then count else |old(Contents())|
      ensures old(Contents()) == out + Contents()
    {
      hide Queue;
      var len := CurrentLength();
      var size := if len > count then count else len;
      out := [];
      while |out| < size
        invariant |out| <= size && old(Contents()) == out + Contents()
      {
        ghost var rest := Contents();
        var c := Get();
        assert out + rest == out + [c] + Contents();
        out := out + [c];
      }
    }

    /**
     * pipe_write: its bound on the bytes to write is one too large. With count >= bufsize - length the
     * last ioq_putchar finds the queue full and blocks; `blocked` says so and the rest is the state then.
     */
    method PipeWrite(data: seq<char>) returns (written: nat, blocked: bool)
      requires Valid()
      modifies `head, buf
      ensures blocked <==> |data| >= BUFSIZE - |old(Contents())|
      ensures !blocked ==> written == |data|
      ensures blocked ==> written == BUFSIZE - 1 - |old(Contents())|
      ensures written <= |data| && Contents() == old(Contents()) + data[..written]
    {
      hide Queue;
      var len := CurrentLength();
      var left := BUFSIZE - len;
      var size := if left > |data| then |data| else left;
      written, blocked := 0, false;
      while written < size
        invariant 0 <= written <= size && Contents() == old(Contents()) + data[..written]
        invariant written <= BUFSIZE - 1 - len
      {
        var full := Full();
        if full {
          blocked := true;
          return;
        }
        Put(data[written]);
        assert data[..written + 1] == data[..written] + [data[written]];
        written := written + 1;
      }
    }
  }
}
