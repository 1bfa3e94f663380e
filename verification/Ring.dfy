// The message ring of a process (kernel/include/type.h:123-126 and its uses in
// kernel/process/proc.c): a buffer of 256 slots with head, tail and count.
module Ring {
  const CAPACITY: nat := 256

  /** The buffer index of the k-th queued message. */
  function Index(tail: nat, k: nat): (i: nat)
    ensures i < CAPACITY
  {
    (tail + k) % CAPACITY
  }

  /** One slot on, as the code steps a pointer. */
  function Stepped(i: nat): nat { if i + 1 == CAPACITY then 0 else i + 1 }

  lemma IndexNext(tail: nat, k: nat)
    requires tail < CAPACITY
    ensures Index(Stepped(tail), k) == Index(tail, k + 1)
    ensures Stepped(Index(tail, k)) == Index(tail, k + 1)
    ensures Index(tail, 0) == tail
  {
    var n := tail + k;
    assert (n + 1) % CAPACITY == if n % CAPACITY + 1 == CAPACITY then 0 else n % CAPACITY + 1;
    if tail + 1 == CAPACITY { assert (CAPACITY + k) % CAPACITY == k % CAPACITY; }
  }

  lemma IndexDistinct(tail: nat, j: nat, k: nat)
    requires j < k < j + CAPACITY
    ensures Index(tail, j) != Index(tail, k)
  {
  }

  /** The buffer with its three counters, as they lie in a process's record. */
  datatype Buffer<T> = Buffer(messages: seq<T>, head: nat, tail: nat, count: nat)

  /** The head is the tail plus the count, around the buffer. */
  predicate Sound<T>(b: Buffer<T>) {
    |b.messages| == CAPACITY && b.tail < CAPACITY && b.count <= CAPACITY && b.head == Index(b.tail, b.count)
  }

  /** The queued messages, oldest first. */
  function Queue<T>(b: Buffer<T>): (q: seq<T>)
    requires Sound(b)
    ensures |q| == b.count
  {
    seq(b.count, k requires 0 <= k < b.count => b.messages[Index(b.tail, k)])
  }

  /** `*msgHead=m; msgHead++;` around the end, `msgCount++`. */
  function Pushed<T>(b: Buffer<T>, m: T): Buffer<T>
    requires Sound(b) && b.count < CAPACITY
  {
    Buffer(b.messages[b.head := m], Stepped(b.head), b.tail, b.count + 1)
  }

  /** `msgTail++;` around the end, `msgCount--`. */
  function Popped<T>(b: Buffer<T>): Buffer<T>
    requires Sound(b) && b.count > 0
  {
    Buffer(b.messages, b.head, Stepped(b.tail), b.count - 1)
  }

  /** A message joins the newest end of the queue; nothing queued is overwritten. */
  lemma PushedQueue<T>(b: Buffer<T>, m: T)
    requires Sound(b) && b.count < CAPACITY
    ensures Sound(Pushed(b, m)) && Queue(Pushed(b, m)) == Queue(b) + [m]
  {
    hide Index;
    IndexNext(b.tail, b.count);
    forall k | 0 <= k < b.count
      ensures Index(b.tail, k) != b.head
    {
      IndexDistinct(b.tail, k, b.count);
    }
  }

  /** The one at the tail is the oldest. */
  lemma PoppedQueue<T>(b: Buffer<T>)
    requires Sound(b) && b.count > 0
    ensures Sound(Popped(b)) && [b.messages[b.tail]] + Queue(Popped(b)) == Queue(b)
  {
    hide Index;
    IndexNext(b.tail, b.count - 1);
    forall k | 0 <= k < b.count
      ensures Index(Stepped(b.tail), k) == Index(b.tail, k + 1)
    {
      IndexNext(b.tail, k);
    }
  }
}
