/**
  Model of arena.h, a bump allocator over one block of `capacity` bytes.
  Every pointer is written as its offset from `base`: `base` itself is 0,
  `head - base` is the field `head`, and a checkpoint is any offset, inside
  the block or not.
*/
module ArenaAlloc {
  import opened Wrappers

  /**
    The head after `arena_rollback(arena, checkpoint)` as written: the head
    moves only when `base >= checkpoint && checkpoint >= base + capacity`.
  */
  function RollbackHead(capacity: nat, head: int, checkpoint: int): int
  {
    if 0 >= checkpoint && checkpoint >= capacity then checkpoint else head
  }

  /** For a head inside the block, the rollback as written never moves it. */
  lemma RollbackNeverMoves(capacity: nat, head: int, checkpoint: int)
    requires 0 <= head <= capacity
    ensures RollbackHead(capacity, head, checkpoint) == head
  {
  }

  /** A checkpoint taken before one allocation is not restored by the rollback as written. */
  lemma RollbackKeepsAllocation()
    ensures RollbackHead(16, 8, 0) == 8
  {
  }

  /**
    The head after a rollback whose guard accepts every checkpoint inside the
    block, `checkpoint >= base && checkpoint <= base + capacity`.
  */
  function RestoredHead(capacity: nat, head: int, checkpoint: int): (h: int)
    ensures 0 <= checkpoint <= capacity ==> h == checkpoint
    ensures 0 <= head <= capacity ==> 0 <= h <= capacity
  {
    if 0 <= checkpoint <= capacity then checkpoint else head
  }

  /** One `Arena`. */
  class Arena {
    const capacity: nat
    var head: int

    /** The head never leaves the block: `0 <= head - base <= capacity`. */
    ghost predicate Valid()
      reads this
    {
      0 <= head <= capacity
    }

    /** The arena `arena_create` returns once both allocations succeed: nothing used yet. */
    constructor (capacity: nat)
      ensures Valid() && this.capacity == capacity && head == 0
    {
      this.capacity := capacity;
      head := 0;
    }

    /** `arena_alloc`: NULL for zero bytes or more than what is left; else the old head, and the head moves by `bytes`. */
    method Alloc(bytes: nat) returns (p: Option<nat>)
      requires Valid()
      modifies this
      ensures Valid()
      ensures bytes == 0 || bytes > capacity - old(head) ==> p == None && head == old(head)
      ensures 0 < bytes <= capacity - old(head) ==> p == Some(old(head)) && head == old(head) + bytes
    {
      if bytes == 0 {
        return None;
      }
      if bytes > capacity - head {
        return None;
      }
      p := Some(head);
      head := head + bytes;
    }

    /** `arena_checkpoint`: the current head; nothing changes. */
    method Checkpoint() returns (p: int)
      requires Valid()
      ensures p == head && 0 <= p <= capacity
    {
      p := head;
    }

    /** `arena_rollback` as written. */
    method Rollback(checkpoint: int)
      requires Valid()
      modifies this
      ensures Valid()
      ensures head == RollbackHead(capacity, old(head), checkpoint)
      ensures head == old(head)
    {
      if 0 >= checkpoint && checkpoint >= capacity {
        head := checkpoint;
      }
    }

    /** The rollback with the guard the comparison evidently meant. */
    method RollbackToCheckpoint(checkpoint: int)
      requires Valid()
      modifies this
      ensures Valid()
      ensures head == RestoredHead(capacity, old(head), checkpoint)
    {
      if checkpoint >= 0 && checkpoint <= capacity {
        head := checkpoint;
      }
    }
  }

  /**
    `arena_create`: `available` says whether both `malloc` calls succeed; if
    not, the result is NULL.
  */
  method Create(capacity: nat, available: bool) returns (a: Arena?)
    ensures available <==> a != null
    ensures a != null ==> fresh(a) && a.Valid() && a.capacity == capacity && a.head == 0
  {
    if !available {
      return null;
    }
    a := new Arena(capacity);
  }

  /** Two successful allocations in a row are adjacent: the second starts where the first ends. */
  method AllocTwice(a: Arena, first: nat, second: nat) returns (p: Option<nat>, q: Option<nat>)
    requires a.Valid()
    modifies a
    ensures a.Valid()
    ensures p.Some? && q.Some? ==>
      && p.value == old(a.head)
      && q.value == p.value + first
      && a.head == q.value + second
  {
    p := a.Alloc(first);
    q := a.Alloc(second);
  }

  /** With the corrected rollback, a checkpoint undoes every allocation made after it. */
  method AllocThenRestore(a: Arena, bytes: nat) returns (p: Option<nat>)
    requires a.Valid()
    modifies a
    ensures a.Valid() && a.head == old(a.head)
  {
    var mark := a.Checkpoint();
    p := a.Alloc(bytes);
    a.RollbackToCheckpoint(mark);
  }
}
