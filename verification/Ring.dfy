/** The receive ring of a connection: a queue in a circular buffer, one slot of which stays empty. */
module Ring {
  import opened Bytes

  const RING: nat := 4096

  predicate RingOk(buf: seq<byte>, head: nat, tail: nat) {
    |buf| == RING && head < RING && tail < RING
  }

  /** The bytes received and not yet read, oldest first. */
  function Queue(buf: seq<byte>, head: nat, tail: nat): (q: seq<byte>)
    requires RingOk(buf, head, tail)
    ensures |q| < RING
  {
    if tail <= head then buf[tail..head] else buf[tail..] + buf[..head]
  }

  lemma QueueLength(buf: seq<byte>, head: nat, tail: nat)
    requires RingOk(buf, head, tail)
    ensures |Queue(buf, head, tail)| == if tail <= head then head - tail else RING - tail + head
  {
  }

  lemma QueuePush(buf: seq<byte>, head: nat, tail: nat, x: byte)
    requires RingOk(buf, head, tail)
    ensures (head + 1) % RING == tail <==> |Queue(buf, head, tail)| == RING - 1
    ensures (head + 1) % RING != tail ==> Queue(buf[head := x], (head + 1) % RING, tail) == Queue(buf, head, tail) + [x]
  {
    hide Queue;
    QueueLength(buf, head, tail);
    if (head + 1) % RING == tail {
    } else if tail <= head {
      PushStraight(buf, head, tail, x);
    } else if head + 1 < tail {
      PushWrapped(buf, head, tail, x);
    }
  }

  lemma PushStraight(buf: seq<byte>, head: nat, tail: nat, x: byte)
    requires RingOk(buf, head, tail) && tail <= head && (head + 1) % RING != tail
    ensures Queue(buf[head := x], (head + 1) % RING, tail) == Queue(buf, head, tail) + [x]
  {
    hide Queue;
    var now := buf[head := x];
    QueueIs(buf, head, tail);
    QueueIs(now, (head + 1) % RING, tail);
    assert now[tail..head + 1] == buf[tail..head] + [x];
  }

  lemma PushWrapped(buf: seq<byte>, head: nat, tail: nat, x: byte)
    requires RingOk(buf, head, tail) && head + 1 < tail
    ensures Queue(buf[head := x], head + 1, tail) == Queue(buf, head, tail) + [x]
  {
    hide Queue;
    var now := buf[head := x];
    QueueIs(buf, head, tail);
    QueueIs(now, head + 1, tail);
    assert now[tail..] == buf[tail..] && now[..head + 1] == buf[..head] + [x];
    Regroup(buf[tail..], buf[..head], [x]);
  }

  lemma QueuePop(buf: seq<byte>, head: nat, tail: nat)
    requires RingOk(buf, head, tail)
    ensures tail == head <==> Queue(buf, head, tail) == []
    ensures tail != head ==> Queue(buf, head, tail) == [buf[tail]] + Queue(buf, head, (tail + 1) % RING)
  {
    if tail < head {
      PopStraight(buf, head, tail);
    } else if tail > head {
      PopWrapped(buf, head, tail);
    }
  }

  lemma PopStraight(buf: seq<byte>, head: nat, tail: nat)
    requires RingOk(buf, head, tail) && tail < head
    ensures Queue(buf, head, tail) == [buf[tail]] + Queue(buf, head, (tail + 1) % RING)
  {
    Slice(buf, tail, head);
    assert Queue(buf, head, (tail + 1) % RING) == buf[tail + 1..head];
  }

  lemma PopWrapped(buf: seq<byte>, head: nat, tail: nat)
    requires RingOk(buf, head, tail) && head < tail
    ensures Queue(buf, head, tail) == [buf[tail]] + Queue(buf, head, (tail + 1) % RING)
  {
    hide Queue;
    var low := buf[..head];
    QueueIs(buf, head, tail);
    QueueIs(buf, head, (tail + 1) % RING);
    if tail + 1 == RING {
      LastOne(buf, tail, low);
    } else {
      OneOfMany(buf, tail, low);
    }
  }

  lemma QueueIs(buf: seq<byte>, head: nat, tail: nat)
    requires RingOk(buf, head, tail)
    ensures Queue(buf, head, tail) == if tail <= head then buf[tail..head] else buf[tail..] + buf[..head]
  {
  }

  lemma LastOne(buf: seq<byte>, tail: nat, low: seq<byte>)
    requires tail + 1 == |buf|
    ensures buf[tail..] + low == [buf[tail]] + low
  {
    assert buf[tail..] == [buf[tail]];
  }

  lemma OneOfMany(buf: seq<byte>, tail: nat, low: seq<byte>)
    requires tail + 1 < |buf|
    ensures buf[tail..] + low == [buf[tail]] + (buf[tail + 1..] + low)
  {
    assert buf[tail..] == [buf[tail]] + buf[tail + 1..];
    Regroup([buf[tail]], buf[tail + 1..], low);
  }

  lemma Regroup(a: seq<byte>, b: seq<byte>, c: seq<byte>)
    ensures a + b + c == a + (b + c)
  {
  }

  lemma Slice(buf: seq<byte>, i: nat, j: nat)
    requires i < j <= |buf|
    ensures buf[i..j] == [buf[i]] + buf[i + 1..j]
  {
  }
}
