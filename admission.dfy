/**
 * Keyed admission control (crawler/BoundedExecutor.java).
 *
 * Tasks are submitted with a tag. At most `bound` tasks sharing a tag are
 * handed to the underlying pool at any time; the others wait in a per-tag
 * FIFO queue. When a running task finishes, the head of its tag's queue takes
 * over the freed slot; when nothing is queued the running count drops, and an
 * entry whose count reaches zero is removed from the table.
 *
 * Each `compute`/`computeIfPresent` call of the source is atomic per key, so
 * every operation below is one sequential transition. Handing a task to the
 * pool (`executor.execute`) is recorded in the ghost history `dispatched`.
 */
module Admission {

  /** Per-tag bookkeeping: tasks waiting for a slot, oldest first, and the
      number of tasks with this tag that the pool is running. */
  datatype DeferredEntry<C> = DeferredEntry(tasks: seq<C>, executing: nat)

  /** The per-tag history `h` records for `t` (nothing if `t` has none). */
  ghost function History<T, C>(h: map<T, seq<C>>, t: T): seq<C>
  {
    if t in h then h[t] else []
  }

  class BoundedExecutor<T(==, !new), C> {
    /** Largest number of tasks with one tag that may run at once. */
    const bound: int
    /** The table of live tags; a tag with nothing running has no entry. */
    var deferred: map<T, DeferredEntry<C>>

    /** Per tag, every command accepted by Execute, in order. */
    ghost var submitted: map<T, seq<C>>
    /** Per tag, every command handed to the pool, in order. */
    ghost var dispatched: map<T, seq<C>>
    /** Per tag, how many completions found their entry. */
    ghost var finished: map<T, nat>

    ghost function Executing(t: T): nat
      reads this
    {
      if t in deferred then deferred[t].executing else 0
    }

    ghost function Queue(t: T): seq<C>
      reads this
    {
      if t in deferred then deferred[t].tasks else []
    }

    ghost function Finished(t: T): nat
      reads this
    {
      if t in finished then finished[t] else 0
    }

    /** The invariant for one tag: the running count stays within 1..bound
        while an entry exists; a non-empty queue means every slot is taken;
        what was submitted is what was dispatched followed by what is still
        queued (so deferred tasks leave in FIFO order and none is lost); and
        the running count is what was dispatched minus what finished. */
    ghost predicate TagValid(t: T)
      reads this
    {
      && (t in deferred ==> 1 <= deferred[t].executing <= bound)
      && (t in deferred && deferred[t].tasks != [] ==> deferred[t].executing == bound)
      && History(submitted, t) == History(dispatched, t) + Queue(t)
      && |History(dispatched, t)| == Finished(t) + Executing(t)
    }

    ghost predicate Valid()
      reads this
    {
      bound >= 1 && forall t :: TagValid(t)
    }

    constructor (bound: int)
      requires bound >= 1
      ensures Valid() && this.bound == bound
      ensures deferred == map[] && submitted == map[] && dispatched == map[] && finished == map[]
    {
      this.bound := bound;
      deferred := map[];
      submitted, dispatched, finished := map[], map[], map[];
    }

    /** Runs `command` on the pool now if fewer than `bound` tasks with `tag`
        are running, otherwise appends it to the tag's queue. */
    method Execute(command: C, tag: T)
      requires Valid()
      modifies this
      ensures Valid()
      ensures History(submitted, tag) == History(old(submitted), tag) + [command]
      ensures old(Executing(tag)) < bound ==>
                && Executing(tag) == old(Executing(tag)) + 1
                && Queue(tag) == old(Queue(tag))
                && History(dispatched, tag) == History(old(dispatched), tag) + [command]
      ensures old(Executing(tag)) == bound ==>
                && Executing(tag) == bound
                && Queue(tag) == old(Queue(tag)) + [command]
                && History(dispatched, tag) == History(old(dispatched), tag)
      ensures tag in deferred
      ensures forall t | t != tag ::
                && (t in deferred <==> t in old(deferred))
                && (t in deferred ==> deferred[t] == old(deferred[t]))
                && History(submitted, t) == History(old(submitted), t)
                && History(dispatched, t) == History(old(dispatched), t)
      ensures finished == old(finished)
    {
      assert TagValid(tag);
      var info := if tag in deferred then deferred[tag] else DeferredEntry([], 0);
      if info.executing == bound {
        info := info.(tasks := info.tasks + [command]);
      } else {
        info := info.(executing := info.executing + 1);
        AddTask(command, tag);
      }
      deferred := deferred[tag := info];
      submitted := submitted[tag := History(submitted, tag) + [command]];
      forall t
        ensures TagValid(t)
      {
        assert old(TagValid(t));
        if t == tag {
          ghost var (s, d, q) := (old(History(submitted, t)), old(History(dispatched, t)), old(Queue(t)));
          if old(Executing(tag)) == bound {
            assert s + [command] == d + (q + [command]);
          } else {
            assert q == [];
            assert s + [command] == (d + [command]) + q;
          }
        } else {
          assert History(submitted, t) == old(History(submitted, t));
          assert History(dispatched, t) == old(History(dispatched, t));
          assert Queue(t) == old(Queue(t));
        }
      }
    }

    /** Hands `task` to the pool. Running it and then calling FinishTask with
        the same tag is left to whoever drives the model. */
    method AddTask(task: C, tag: T)
      modifies this`dispatched
      ensures dispatched == old(dispatched)[tag := History(old(dispatched), tag) + [task]]
    {
      dispatched := dispatched[tag := History(dispatched, tag) + [task]];
    }

    /** Called when a task with `tag` has run: the head of the tag's queue
        takes over the slot, or else the running count drops, and the entry
        is removed once it reaches zero. A tag without entry is left alone. */
    method FinishTask(tag: T)
      requires Valid()
      modifies this
      ensures Valid()
      ensures submitted == old(submitted)
      ensures forall t | t != tag ::
                && (t in deferred <==> t in old(deferred))
                && (t in deferred ==> deferred[t] == old(deferred[t]))
                && History(dispatched, t) == History(old(dispatched), t)
                && Finished(t) == old(Finished(t))
      ensures tag !in old(deferred) ==>
                deferred == old(deferred) && dispatched == old(dispatched) && finished == old(finished)
      ensures tag in old(deferred) ==> Finished(tag) == old(Finished(tag)) + 1
      ensures tag in old(deferred) && old(Queue(tag)) != [] ==>
                && History(dispatched, tag) == History(old(dispatched), tag) + [old(Queue(tag))[0]]
                && Queue(tag) == old(Queue(tag))[1..]
                && Executing(tag) == old(Executing(tag))
      ensures tag in old(deferred) && old(Queue(tag)) == [] ==>
                && History(dispatched, tag) == History(old(dispatched), tag)
                && Executing(tag) == old(Executing(tag)) - 1
                && (tag in deferred <==> old(Executing(tag)) > 1)
    {
      if tag in deferred {
        if deferred[tag].tasks == [] {
          ReleaseSlot(tag);
        } else {
          PassSlot(tag);
        }
      }
    }

    /** finishTask when nothing waits: the running count drops and the
        entry goes once it reaches zero. */
    method ReleaseSlot(tag: T)
      requires Valid() && tag in deferred && deferred[tag].tasks == []
      modifies this
      ensures Valid()
      ensures submitted == old(submitted) && dispatched == old(dispatched)
      ensures forall t | t != tag ::
                && (t in deferred <==> t in old(deferred))
                && (t in deferred ==> deferred[t] == old(deferred[t]))
                && Finished(t) == old(Finished(t))
      ensures Finished(tag) == old(Finished(tag)) + 1
      ensures Executing(tag) == old(Executing(tag)) - 1
      ensures tag in deferred <==> old(Executing(tag)) > 1
    {
      assert TagValid(tag);
      var info := deferred[tag];
      info := info.(executing := info.executing - 1);
      if info.executing == 0 {
        deferred := deferred - {tag};
      } else {
        deferred := deferred[tag := info];
      }
      finished := finished[tag := Finished(tag) + 1];
      forall t | t != tag
        ensures TagValid(t)
      {
        assert old(TagValid(t));
      }
      assert TagValid(tag);
    }

    /** finishTask when tasks wait: the head of the queue is handed to the
        pool in the freed slot. */
    method PassSlot(tag: T)
      requires Valid() && tag in deferred && deferred[tag].tasks != []
      modifies this
      ensures Valid()
      ensures submitted == old(submitted)
      ensures forall t | t != tag ::
                && (t in deferred <==> t in old(deferred))
                && (t in deferred ==> deferred[t] == old(deferred[t]))
                && History(dispatched, t) == History(old(dispatched), t)
                && Finished(t) == old(Finished(t))
      ensures Finished(tag) == old(Finished(tag)) + 1
      ensures History(dispatched, tag) == History(old(dispatched), tag) + [old(Queue(tag))[0]]
      ensures Queue(tag) == old(Queue(tag))[1..]
      ensures Executing(tag) == old(Executing(tag))
    {
      assert TagValid(tag);
      var info := deferred[tag];
      var head := info.tasks[0];
      AddTask(head, tag);
      info := info.(tasks := info.tasks[1..]);
      deferred := deferred[tag := info];
      finished := finished[tag := Finished(tag) + 1];
      forall t | t != tag
        ensures TagValid(t)
      {
        assert old(TagValid(t));
      }
      ghost var (d, q) := (old(History(dispatched, tag)), old(Queue(tag)));
      assert d + q == (d + [head]) + info.tasks;
      assert TagValid(tag);
    }
  }
}
