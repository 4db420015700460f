/** The small FIFO queue behind `level_order`: a Ruby array that receives
    elements at its end and gives them out from its front. */
module Queues {
  import opened Options

  class Queue<T> {
    var queue: seq<T>

    constructor (items: seq<T>)
      ensures queue == items
    {
      queue := items;
    }

    /** `enqueue(element)`: appends at the back. */
    method Enqueue(element: T)
      modifies this
      ensures queue == old(queue) + [element]
    {
      queue := queue + [element];
    }

    /** `dequeue`: takes the front element off; like Ruby's `shift`, gives
        `nil` when the queue is empty. */
    method Dequeue() returns (element: Option<T>)
      modifies this
      ensures old(queue) == [] ==> element == None && queue == []
      ensures old(queue) != [] ==> element == Some(old(queue)[0]) && queue == old(queue)[1..]
    {
      if queue == [] {
        element := None;
      } else {
        element := Some(queue[0]);
        queue := queue[1..];
      }
    }

    /** `empty?` */
    method IsEmpty() returns (empty: bool)
      ensures empty <==> queue == []
    {
      empty := |queue| == 0;
    }

    /** `size` */
    method Size() returns (n: nat)
      ensures n == |queue|
    {
      n := |queue|;
    }
  }
}
