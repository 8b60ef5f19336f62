/** The four `queue.Queue()` conduits of backend/services/queues.py. Each is created
    without `maxsize`, so it is unbounded: `put` always succeeds and never waits. */
module Queues {
  import opened Wrappers
  import opened Schemas

  /** A FIFO queue: the pending items, oldest first, and the count of items put
      whose `task_done` has not yet been called (what `join` waits on). */
  datatype Queue<T> = Queue(items: seq<T>, unfinished: nat)

  function NewQueue<T>(): Queue<T> {
    Queue([], 0)
  }

  /** Every pending item is still unfinished: true of every queue built by `Put`,
      `Get` and `TaskDone` calls that each follow a `Get`. */
  ghost predicate Accounted<T>(q: Queue<T>) {
    |q.items| <= q.unfinished
  }

  /** `put`: the item goes behind every pending one; nothing else moves. */
  function Put<T>(q: Queue<T>, x: T): (r: Queue<T>)
    ensures |r.items| == |q.items| + 1
    ensures r.items[..|q.items|] == q.items && r.items[|q.items|] == x
    ensures r.unfinished == q.unfinished + 1
    ensures Accounted(q) ==> Accounted(r)
  {
    Queue(q.items + [x], q.unfinished + 1)
  }

  /** The outcome of `get`: it waits while the queue is empty. */
  datatype Taken<T> = Waiting | Taken(item: T, rest: Queue<T>)

  /** `get`: removes exactly the oldest item, so no item is delivered twice. */
  function Get<T>(q: Queue<T>): (r: Taken<T>)
    ensures r.Waiting? <==> q.items == []
    ensures r.Taken? ==> [r.item] + r.rest.items == q.items
    ensures r.Taken? ==> multiset(q.items) == multiset(r.rest.items) + multiset{r.item}
    ensures r.Taken? ==> r.rest.unfinished == q.unfinished
  {
    if q.items == [] then Waiting
    else
      assert q.items == [q.items[0]] + q.items[1..];
      Taken(q.items[0], Queue(q.items[1..], q.unfinished))
  }

  /** `task_done`: `None` is the `ValueError` raised when it is called more times
      than items were put. */
  function TaskDone<T>(q: Queue<T>): (r: Option<Queue<T>>)
    ensures r.None? <==> q.unfinished == 0
    ensures r.Some? ==> r.value.items == q.items && r.value.unfinished + 1 == q.unfinished
  {
    if q.unfinished == 0 then None else Some(Queue(q.items, q.unfinished - 1))
  }

  /** Puts every item of `xs`, in order. */
  function PutAll<T>(q: Queue<T>, xs: seq<T>): (r: Queue<T>)
    ensures r.items == q.items + xs
    ensures r.unfinished == q.unfinished + |xs|
    decreases |xs|
  {
    if xs == [] then q else PutAll(Put(q, xs[0]), xs[1..])
  }

  /** Calls `get` `n` times on a queue holding at least `n` items. */
  function GetN<T>(q: Queue<T>, n: nat): (r: (seq<T>, Queue<T>))
    requires n <= |q.items|
    ensures r.0 == q.items[..n] && r.1.items == q.items[n..]
    ensures r.1.unfinished == q.unfinished
    decreases n
  {
    if n == 0 then ([], q)
    else
      var t := Get(q);
      var more := GetN(t.rest, n - 1);
      ([t.item] + more.0, more.1)
  }

  /** Strict FIFO: whatever was pending comes out first, then the new items in the
      order they were put. */
  lemma {:induction false} FifoOrder<T>(q: Queue<T>, xs: seq<T>)
    ensures var p := PutAll(q, xs); GetN(p, |p.items|).0 == q.items + xs
  {
    var p := PutAll(q, xs);
    assert p.items[..|p.items|] == p.items;
  }

  /** Put A then B on an empty queue, get twice: A, then B. */
  lemma FifoTwo<T>(a: T, b: T)
    ensures GetN(Put(Put(NewQueue(), a), b), 2).0 == [a, b]
  {
  }

  /** The four module-level queues. A `None` on either request queue is the
      consuming worker's stop signal. */
  datatype Conduits = Conduits(
    sttInput: Queue<Option<STTRequest>>,
    sttOutput: Queue<Transcript>,
    ttsInput: Queue<Option<TTSRequest>>,
    ttsOutput: Queue<StsResponse>)

  function NewConduits(): Conduits {
    Conduits(NewQueue(), NewQueue(), NewQueue(), NewQueue())
  }

  /** Why a worker loop ended with an exception. */
  datatype Fault =
    | TaskDoneTooOften      // `task_done` raising `ValueError`
    | MissingApiKey         // `_translate` raising `ValueError` for an empty key
    | TranslationError      // a non-retryable exception escaping `_translate`

  /** One turn of a worker loop: waiting on an empty queue, going round again,
      leaving the loop on the stop signal, or ending by an escaped exception. */
  datatype WorkerStep =
    | Idle
    | Continued(after: Conduits)
    | Stopped(after: Conduits)
    | Crashed(after: Conduits, fault: Fault)
}
