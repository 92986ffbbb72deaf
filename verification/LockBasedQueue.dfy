/** The mutex-protected queue: one list, `push_back` and `pop_front`, each under the lock and so atomic. */
module LockBasedQueue {
  import opened Wrappers

  /** The content and result of `pop_front` on a list. */
  function PopFront<T>(s: seq<T>): (r: (seq<T>, Option<T>))
    ensures s == (match r.1 case None => [] case Some(v) => [v]) + r.0
    ensures r.1.None? <==> s == []
  {
    if s == [] then (s, None) else (s[1..], Some(s[0]))
  }

  function PushBack<T>(s: seq<T>, v: T): seq<T> {
    s + [v]
  }

  class LockBasedQueue<T> {
    var inner: seq<T>

    constructor ()
      ensures inner == []
    {
      inner := [];
    }

    method Enqueue(value: T)
      modifies this
      ensures inner == PushBack(old(inner), value)
    {
      inner := inner + [value];
    }

    method Dequeue() returns (res: Option<T>)
      modifies this
      ensures (inner, res) == PopFront(old(inner))
    {
      if |inner| == 0 {
        res := None;
      } else {
        res := Some(inner[0]);
        inner := inner[1..];
      }
    }
  }
}
