/** A consumer's two buffers as slices over arrays: publishers append to one while the batch in the other is being
    handled, and the consumer swaps the two when it takes the next batch. */
module EventBuffers {
  import opened Slices

  class Consumer<T> {
    var queue: Slice<T>
    var pending: Slice<T>
    var stop: bool

    /** The buffers never share a backing array. */
    ghost predicate Valid()
      reads this
    {
      queue.Valid() && pending.Valid() && queue.Backing() !! pending.Backing()
    }

    ghost function Repr(): set<object>
      reads this
    {
      queue.Backing() + pending.Backing()
    }

    constructor ()
      ensures Valid() && fresh(Repr())
      ensures queue.Contents() == [] && pending.Contents() == [] && !stop
    {
      queue, pending, stop := Nil(), Nil(), false;
    }

    /** A publisher's event joins the queue. What is being handled stays as it is. */
    method Enqueue(ev: T)
      requires Valid()
      modifies this`queue, queue.Backing()
      ensures Valid() && fresh(Repr() - old(Repr()))
      ensures queue.Contents() == old(queue.Contents()) + [ev]
      ensures pending == old(pending) && pending.Contents() == old(pending.Contents())
    {
      queue := Append(queue, ev);
    }

    /** Listen's swap: the queue becomes the batch, and the handled batch's array the empty queue. */
    method Swap()
      requires Valid()
      modifies this`queue, this`pending
      ensures Valid() && Repr() == old(Repr())
      ensures pending == old(queue) && pending.Contents() == old(queue.Contents())
      ensures queue.arr == old(pending.arr) && queue.Contents() == []
    {
      var temp := queue;
      queue := Slice(pending.arr, 0);
      pending := temp;
    }
  }
}
