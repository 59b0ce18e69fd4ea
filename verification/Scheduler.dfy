/** The scheduler, the timer, and the part of fork that takes a slot of the task table. */
module Scheduler {
  import opened TaskTable

  const EAGAIN: int := 11
  const UNINTERRUPTIBLE: int := 2
  const DEF_PRIORITY: int := 15

  /** The process number that follows p, going round to 1. */
  function NextPid(p: int): int {
    if p == MAX_PID then 1 else p + 1
  }

  ghost predicate PidUsed(t: Table, pid: int) {
    exists k :: 0 <= k < |t| && t[k].Task? && t[k].pid == pid
  }

  // ---------- a free process number is found ----------

  /** The i-th number tried after p. */
  function Try(p: int, i: nat): (q: int)
    requires 0 <= p <= MAX_PID
  {
    (p + i - 1) % MAX_PID + 1
  }

  lemma TryNext(p: int, i: nat)
    requires 0 <= p <= MAX_PID
    ensures 1 <= Try(p, i) <= MAX_PID && Try(p, i + 1) == NextPid(Try(p, i))
    ensures Try(p, 1) == NextPid(p)
  {
  }

  /** Number q comes after p and before r, going round. */
  predicate Between(p: int, q: int, r: int) {
    1 <= q <= MAX_PID && if p < r then p < q < r else q > p || q < r
  }

  /** The next number to try has one more behind it. */
  lemma BetweenNext(p: int, n: nat, q: int)
    requires 0 <= p <= MAX_PID && n < MAX_PID - 1
    ensures n == 0 ==> !Between(p, q, NextPid(p))
    ensures n > 0 ==> Between(p, q, NextPid(Try(p, n))) ==> Between(p, q, Try(p, n)) || q == Try(p, n)
  {
  }

  function Tried(p: int, n: nat): set<int>
    requires 0 <= p <= MAX_PID
  {
    if n == 0 then {} else Tried(p, n - 1) + {Try(p, n)}
  }

  lemma {:induction false} TriedSize(p: int, n: nat)
    requires 0 <= p <= MAX_PID && n < MAX_PID
    ensures |Tried(p, n)| == n
    ensures forall m :: n < m < MAX_PID ==> Try(p, m) !in Tried(p, n)
  {
    if n > 0 {
      TriedSize(p, n - 1);
    }
  }

  function Pids(t: Table): (s: set<int>)
    ensures |s| <= |t| && forall k :: 0 <= k < |t| && t[k].Task? ==> t[k].pid in s
  {
    if t == [] then {}
    else
      var s := Pids(t[..|t| - 1]);
      if t[|t| - 1].Task? then s + {t[|t| - 1].pid} else s
  }

  /** Numbers that are all in use are no more than the slots of the table. */
  lemma TriedFewer(t: Table, p: int, n: nat)
    requires |t| == NR_TASKS && 0 <= p <= MAX_PID && n < MAX_PID && Tried(p, n) <= Pids(t)
    ensures n <= NR_TASKS
  {
    TriedSize(p, n);
    var tried, pids := Tried(p, n), Pids(t);
    assert pids == tried + (pids - tried);
  }

  class Scheduler {
    const task: array<Slot>
    var current: int
    var lastPid: int

    ghost function State(): State
      reads this, task
    {
      TaskTable.State(task[..], current)
    }

    ghost predicate Valid()
      reads this, task
    {
      task.Length == NR_TASKS && Good(State()) && 0 <= lastPid <= MAX_PID
    }

    /** Only task 0, with its built-in priority, at boot. */
    constructor ()
      ensures Valid() && fresh(task) && current == 0 && task[0] == Task(RUNNING, DEF_PRIORITY, DEF_PRIORITY, 0)
      ensures forall k :: 0 < k < NR_TASKS ==> task[k].Free?
    {
      current, lastPid := 0, 0;
      task := new Slot[NR_TASKS](k => if k == 0 then Task(RUNNING, DEF_PRIORITY, DEF_PRIORITY, 0) else Free);
    }

    /** One pass over the table, from its end. */
    method Scan() returns (c: int, next: int)
      requires task.Length == NR_TASKS && Sound(task[..])
      ensures c > 0 ==> Chosen(task[..], next)
      ensures c <= 0 ==> !exists k :: Ready(task[..], k)
    {
      c, next := -1, 0;
      var i := NR_TASKS;
      while i > 0
        invariant 0 <= i <= NR_TASKS && c >= -1
        invariant c >= 0 ==> i <= next < NR_TASKS && Runs(task[..], next) && task[next].counter == c
        invariant forall k :: i <= k < NR_TASKS && Runs(task[..], k) ==>
            task[k].counter < c || (task[k].counter == c && k <= next)
      {
        i := i - 1;
        if task[i].Task? && task[i].state == RUNNING && task[i].counter > c {
          c, next := task[i].counter, i;
        }
      }
    }

    /** Every slot is recharged, from the end of the table. */
    method RechargeAll()
      requires task.Length == NR_TASKS
      modifies task
      ensures task[..] == Recharged(old(task[..]))
    {
      var p := NR_TASKS;
      while p > 0
        invariant 0 <= p <= NR_TASKS
        invariant forall k :: p <= k < NR_TASKS ==> task[k] == Recharge(old(task[..])[k])
        invariant forall k :: 0 <= k < p ==> task[k] == old(task[..])[k]
      {
        p := p - 1;
        if task[p].Task? {
          task[p] := task[p].(counter := task[p].counter / 2 + task[p].priority);
        }
      }
    }

    /** Some task must be running, or the source never leaves its loop. */
    method Schedule()
      requires task.Length == NR_TASKS && Sound(task[..]) && exists k :: Runs(task[..], k)
      modifies this`current, task
      ensures Scheduled(old(task[..]), task[..], current)
      ensures 0 <= current < NR_TASKS && task[current].Task? && task[current].state == 0 && task[current].counter > 0
      ensures forall k :: 0 <= k < NR_TASKS && task[k].Task? && task[k].state == 0 ==>
          task[k].counter <= task[current].counter && (k > current ==> task[k].counter < task[current].counter)
    {
      var c, next := Scan();
      ghost var recharges := 0;
      while c <= 0
        invariant recharges == 0 ==> task[..] == old(task[..])
        invariant recharges == 1 ==>
            task[..] == Recharged(old(task[..])) && !(exists k :: Ready(old(task[..]), k)) && c > 0
        invariant recharges <= 1 && Sound(task[..])
        invariant c > 0 ==> Chosen(task[..], next)
        invariant c <= 0 ==> !exists k :: Ready(task[..], k)
        decreases 1 - recharges
      {
        RechargedSound(task[..]);
        ghost var k :| Runs(task[..], k);
        ghost var before := task[..];
        RechargeAll();
        assert Ready(Recharged(before), k);
        recharges := recharges + 1;
        c, next := Scan();
      }
      current := next;
    }

    /** The timer interrupt; in user mode the interrupted task is running. */
    method DoTimer(cpl: bool)
      requires Valid() && (cpl ==> Runs(task[..], current))
      modifies this`current, task
      ensures Valid() && Step(old(State()), if cpl then UserTick else KernelTick, State())
    {
      CountedSound(State());
      var c := task[current].counter - 1;
      task[current] := task[current].(counter := c);
      if c > 0 {
        assert task[..] == Counted(old(State()));
        return;
      }
      task[current] := task[current].(counter := 0);
      assert task[..] == Counted(old(State()));
      if !cpl {
        return;
      }
      assert Runs(task[..], current);
      Schedule();
      StepKeeps(old(State()), UserTick, State());
    }

    /** The current task gives the processor up. Task 0 must not, and another one must be running. */
    method Sleep(state: int)
      requires Valid() && state != RUNNING && current != 0 && exists k :: k != current && Runs(task[..], k)
      modifies this`current, task
      ensures Valid() && Step(old(State()), TaskTable.Sleep(state), State())
    {
      ghost var k :| k != current && Runs(task[..], k);
      SleepSound(State(), state);
      task[current] := task[current].(state := state);
      assert Runs(task[..], k);
      Schedule();
      StepKeeps(old(State()), TaskTable.Sleep(state), State());
    }

    method WakeUp(k: int)
      requires Valid() && 0 <= k < NR_TASKS && task[k].Task?
      modifies task
      ensures Valid() && Step(old(State()), Wake(k), State())
    {
      task[k] := task[k].(state := RUNNING);
    }

    // ---------- fork ----------

    /** The next process number that no task has, and the first free slot after slot 0. */
    method FindEmptyProcess() returns (nr: int)
      requires Valid()
      modifies this`lastPid
      ensures Valid() && 1 <= lastPid && !PidUsed(task[..], lastPid)
      ensures forall q :: Between(old(lastPid), q, lastPid) ==> PidUsed(task[..], q)
      ensures nr == -EAGAIN ==> forall k :: 1 <= k < NR_TASKS ==> task[k].Task?
      ensures nr != -EAGAIN ==> 1 <= nr < NR_TASKS && task[nr].Free? && forall k :: 1 <= k < nr ==> task[k].Task?
    {
      ghost var n := 0;
      var used := true;
      while used
        invariant 0 <= n <= NR_TASKS + 1 && 0 <= lastPid <= MAX_PID && Valid()
        invariant n > 0 ==> lastPid == Try(old(lastPid), n)
        invariant n == 0 ==> lastPid == old(lastPid) && used
        invariant used ==> Tried(old(lastPid), n) <= Pids(task[..])
        invariant !used ==> 1 <= lastPid && !PidUsed(task[..], lastPid)
        invariant used && n > 0 ==> PidUsed(task[..], lastPid)
        invariant n > 0 ==> forall q :: Between(old(lastPid), q, lastPid) ==> PidUsed(task[..], q)
        invariant !used ==> n > 0
        decreases used, NR_TASKS + 1 - n
      {
        TriedFewer(task[..], old(lastPid), n);
        TryNext(old(lastPid), n);
        forall q | Between(old(lastPid), q, NextPid(lastPid))
          ensures PidUsed(task[..], q)
        {
          BetweenNext(old(lastPid), n, q);
        }
        lastPid := NextPid(lastPid);
        n := n + 1;
        used := false;
        var i := 0;
        while i < NR_TASKS && !used
          invariant 0 <= i <= NR_TASKS
          invariant used ==> lastPid in Pids(task[..]) && PidUsed(task[..], lastPid)
          invariant !used ==> forall k :: 0 <= k < i && task[k].Task? ==> task[k].pid != lastPid
        {
          if task[i].Task? && task[i].pid == lastPid {
            assert task[..][i].pid in Pids(task[..]);
            used := true;
          }
          i := i + 1;
        }
      }
      nr := 1;
      while nr < NR_TASKS
        invariant 1 <= nr <= NR_TASKS && forall k :: 1 <= k < nr ==> task[k].Task?
      {
        if task[nr].Free? {
          return;
        }
        nr := nr + 1;
      }
      nr := -EAGAIN;
    }

    /** The slot of a new task: the parent's priority and all of it as time. `taskPage` and `copied` say whether there
        is a frame for the task and whether its memory could be copied; without either the slot is empty again and the
        process number used up. */
    method Fork(taskPage: bool, copied: bool) returns (pid: int)
      requires Valid()
      modifies this`lastPid, task
      ensures Valid()
      ensures pid == -EAGAIN <==> !taskPage || !copied || forall k :: 1 <= k < NR_TASKS ==> old(task[..])[k].Task?
      ensures pid == -EAGAIN ==> task[..] == old(task[..])
      ensures pid != -EAGAIN ==>
                && 1 <= pid == lastPid && !PidUsed(old(task[..]), pid)
                && exists nr :: 1 <= nr < NR_TASKS && old(task[..])[nr].Free?
                     && (forall k :: 1 <= k < nr ==> old(task[..])[k].Task?)
                     && task[..] == old(task[..])[nr := Task(RUNNING, old(task[..])[current].priority,
                         old(task[..])[current].priority, pid)]
    {
      var nr := FindEmptyProcess();
      if nr < 0 || !taskPage {
        return -EAGAIN;
      }
      task[nr] := task[current].(counter := task[current].priority, state := UNINTERRUPTIBLE, pid := lastPid);
      if !copied {
        task[nr] := Free;
        assert task[..] == old(task[..]);
        return -EAGAIN;
      }
      task[nr] := task[nr].(state := RUNNING);
      return lastPid;
    }
  }
}
