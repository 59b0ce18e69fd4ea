/** The task table as the scheduler sees it, and how long a task can be kept waiting. */
module TaskTable {
  const NR_TASKS: nat := 8
  const RUNNING: int := 0
  const MAX_PID: int := 0x7fff_ffff

  datatype Slot = Free | Task(state: int, counter: int, priority: int, pid: int)

  type Table = seq<Slot>

  predicate Runs(t: Table, k: int) {
    0 <= k < |t| && t[k].Task? && t[k].state == RUNNING
  }

  /** A task in the table that could be given the processor at once. */
  predicate Ready(t: Table, k: int) {
    Runs(t, k) && t[k].counter > 0
  }

  /** A slot whose counter is in range, for a task that gets processor time at all. */
  predicate InRange(s: Slot) {
    s.Free? || (s.priority > 0 && 0 <= s.counter <= 2 * s.priority - 1)
  }

  predicate Sound(t: Table) {
    |t| == NR_TASKS && forall k :: 0 <= k < NR_TASKS ==> InRange(t[k])
  }

  function Recharge(s: Slot): Slot {
    if s.Free? then s else s.(counter := s.counter / 2 + s.priority)
  }

  function Recharged(t: Table): (r: Table)
    ensures |r| == |t|
  {
    seq(|t|, k requires 0 <= k < |t| => Recharge(t[k]))
  }

  /** The choice: a running task with the greatest counter, the last in the table among equals. */
  ghost predicate Chosen(t: Table, n: int) {
    Ready(t, n) && forall k :: Runs(t, k) ==> t[k].counter < t[n].counter || (t[k].counter == t[n].counter && k <= n)
  }

  /** The table after the scheduler has run: recharged once if no running task had any time left. */
  ghost predicate Scheduled(t: Table, u: Table, n: int) {
    Chosen(u, n) && (if exists k :: Ready(t, k) then u == t else u == Recharged(t))
  }

  lemma RechargedSound(t: Table)
    requires Sound(t)
    ensures Sound(Recharged(t)) && forall k :: Runs(t, k) ==> Ready(Recharged(t), k)
  {
  }

  function Recharges(t: Table, n: nat): (r: Table)
    ensures |r| == |t|
  {
    if n == 0 then t else Recharged(Recharges(t, n - 1))
  }

  /** With counters and priorities that are not negative, recharging ever finds a task to run exactly if some running
      task has time left or a priority; it finds one after at most one recharge, or never. */
  lemma {:induction false} OneRechargeOrNever(t: Table, n: nat)
    requires forall k :: Runs(t, k) ==> t[k].counter >= 0 && t[k].priority >= 0
    ensures (exists k :: Runs(t, k) && (t[k].counter > 0 || t[k].priority > 0)) ==>
              (exists k :: Ready(t, k)) || (exists k :: Ready(Recharged(t), k))
    ensures !(exists k :: Runs(t, k) && (t[k].counter > 0 || t[k].priority > 0)) ==>
        !(exists k :: Ready(Recharges(t, n), k))
  {
    if k :| Runs(t, k) && (t[k].counter > 0 || t[k].priority > 0) {
      assert Ready(t, k) || Ready(Recharged(t), k);
    } else {
      NeverCharged(t, n);
    }
  }

  lemma {:induction false} NeverCharged(t: Table, n: nat)
    requires forall k :: Runs(t, k) ==> t[k].counter == 0 && t[k].priority == 0
    ensures forall k :: Runs(Recharges(t, n), k) ==> Recharges(t, n)[k].counter == 0 && Recharges(t, n)[k].priority == 0
  {
    if n > 0 {
      NeverCharged(t, n - 1);
      var r := Recharges(t, n - 1);
      assert forall k :: Runs(Recharged(r), k) ==> Runs(r, k);
    }
  }

  /** Time a task lacks to twice its priority. */
  function Lacks(s: Slot): int
    requires s.Task?
  {
    2 * s.priority - s.counter
  }

  function Power(n: nat): (p: nat)
    ensures p > 0
  {
    if n == 0 then 1 else 2 * Power(n - 1)
  }

  /** Every recharge halves, rounding up, what a task lacks to twice its priority: the exact counter of a task after any
      number of recharges, so that one that sleeps comes ahead of one that runs. */
  lemma {:induction false} SleeperGains(t: Table, k: nat, n: nat)
    requires k < |t| && t[k].Task? && t[k].counter >= 0 && t[k].priority >= 0
    ensures var u := Recharges(t, n)[k];
            && u.Task? && u == t[k].(counter := u.counter) && u.counter >= 0
            && (Lacks(u) - 1) * Power(n) < Lacks(t[k]) <= Lacks(u) * Power(n)
  {
    if n > 0 {
      SleeperGains(t, k, n - 1);
      var was, now := Recharges(t, n - 1)[k], Recharges(t, n)[k];
      Halved(Lacks(t[k]), Lacks(was), Lacks(now), Power(n - 1));
    }
  }

  lemma Halved(first: int, was: int, now: int, p: nat)
    requires (was - 1) * p < first <= was * p && 2 * (now - 1) <= was - 1 && was <= 2 * now
    ensures (now - 1) * (2 * p) < first <= now * (2 * p)
  {
    Scaled(2 * (now - 1), was - 1, p);
    Scaled(was, 2 * now, p);
    assert (now - 1) * (2 * p) == 2 * (now - 1) * p && now * (2 * p) == 2 * now * p;
  }

  lemma Scaled(a: int, b: int, p: nat)
    requires a <= b
    ensures a * p <= b * p
  {
  }

  // ---------- runs ----------

  datatype State = State(table: Table, current: int)

  /** What can happen: a timer tick in user mode or in the kernel, the current task going to sleep, another
      one being woken. */
  datatype Event = UserTick | KernelTick | Sleep(state: int) | Wake(task: int)

  predicate Good(s: State) {
    Sound(s.table) && 0 <= s.current < NR_TASKS && s.table[s.current].Task?
  }

  function Counted(s: State): (r: Table)
    requires Good(s)
    ensures |r| == |s.table|
  {
    var c := s.table[s.current].counter - 1;
    s.table[s.current := s.table[s.current].(counter := if c > 0 then c else 0)]
  }

  ghost predicate Step(s: State, e: Event, r: State)
    requires Good(s)
  {
    match e
    case UserTick =>
      if s.table[s.current].counter > 1 then r == State(Counted(s), s.current)
          else Scheduled(Counted(s), r.table, r.current)
    case KernelTick => r == State(Counted(s), s.current)
    case Sleep(state) =>
      state != RUNNING && Scheduled(s.table[s.current := s.table[s.current].(state := state)], r.table, r.current)
    case Wake(k) =>
      0 <= k < NR_TASKS && s.table[k].Task? && r == s.(table := s.table[k := s.table[k].(state := RUNNING)])
  }

  lemma CountedSound(s: State)
    requires Good(s)
    ensures Sound(Counted(s))
  {
  }

  lemma StepKeeps(s: State, e: Event, r: State)
    requires Good(s) && Step(s, e, r)
    ensures Good(r) && forall k :: 0 <= k < NR_TASKS ==> (r.table[k].Free? <==> s.table[k].Free?)
    ensures forall k :: 0 <= k < NR_TASKS && s.table[k].Task? ==> r.table[k].priority == s.table[k].priority
  {
    CountedSound(s);
    RechargedSound(Counted(s));
    match e
    case Sleep(state) => RechargedSound(s.table[s.current := s.table[s.current].(state := state)]);
    case _ =>
  }

  /** A task in user mode keeps the processor for exactly the ticks its counter says: through that many less one nothing
      but the counter changes, and the next makes the scheduler choose. */
  lemma {:induction false} FullSlice(s: State, es: seq<Event>, rs: seq<State>)
    requires Path(s, es, rs) && es != [] && (forall i :: 0 <= i < |es| ==> es[i].UserTick?)
    requires |es| <= s.table[s.current].counter
    ensures var c, r := s.table[s.current], rs[|rs| - 1];
            if |es| < c.counter then
              r == State(s.table[s.current := c.(counter := c.counter - |es|)], s.current)
            else Scheduled(s.table[s.current := c.(counter := 0)], r.table, r.current)
    decreases |es|
  {
    var c := s.table[s.current];
    if |es| > 1 {
      FullSlice(rs[0], es[1..], rs[1..]);
      assert rs[0].table[s.current := c.(counter := c.counter - |es|)]
          == s.table[s.current := c.(counter := c.counter - |es|)];
      assert rs[0].table[s.current := c.(counter := 0)] == s.table[s.current := c.(counter := 0)];
    }
  }

  // ---------- waiting for the processor ----------

  /** The time the other tasks have left, and the most a recharge could leave them. */
  function Others(t: Table, j: int, n: nat): int
    requires n <= |t|
  {
    if n == 0 then 0 else Others(t, j, n - 1) + if n - 1 == j || t[n - 1].Free? then 0 else t[n - 1].counter
  }

  function Budget(t: Table, j: int, n: nat): int
    requires n <= |t|
  {
    if n == 0 then 0 else Budget(t, j, n - 1) + if n - 1 == j || t[n - 1].Free? then 0 else 2 * t[n - 1].priority
  }

  lemma {:induction false} OthersBounds(t: Table, j: int, n: nat, k: int)
    requires n <= |t| && forall i :: 0 <= i < n ==> InRange(t[i])
    ensures 0 <= Others(t, j, n) <= Budget(t, j, n)
    ensures 0 <= k < n && k != j && t[k].Task? ==> t[k].counter <= Others(t, j, n)
  {
    if n > 0 {
      OthersBounds(t, j, n - 1, k);
    }
  }

  /** The sums after the counter of slot k has changed. */
  lemma {:induction false} OthersChange(t: Table, u: Table, j: int, n: nat, k: int)
    requires |u| == |t| && n <= |t| && 0 <= k < |t| && t[k].Task? && u == t[k := u[k]] && u[k].Task?
        && u[k].priority == t[k].priority
    ensures Others(u, j, n) == Others(t, j, n) + if k < n && k != j then u[k].counter - t[k].counter else 0
    ensures Budget(u, j, n) == Budget(t, j, n)
  {
    if n > 0 {
      OthersChange(t, u, j, n - 1, k);
    }
  }

  lemma {:induction false} OthersRecharged(t: Table, j: int, n: nat)
    requires n <= |t| && forall i :: 0 <= i < |t| ==> InRange(t[i])
    ensures Others(Recharged(t), j, n) <= Budget(t, j, n)
  {
    if n > 0 {
      OthersRecharged(t, j, n - 1);
    }
  }

  /** User-mode ticks that task j can still have to wait. */
  function Rank(s: State, j: int): int
    requires Good(s) && 0 <= j < NR_TASKS && s.table[j].Task?
  {
    Others(s.table, j, NR_TASKS)
    + (if s.table[s.current].counter == 0 then 1 else 0)
    + (if s.table[j].counter == 0 then Budget(s.table, j, NR_TASKS) else 0)
  }

  /** The scheduler itself, with another task chosen than the waiting one. */
  lemma RankScheduled(s: State, r: State, j: int)
    requires Good(s) && Scheduled(s.table, r.table, r.current) && Runs(s.table, j) && r.current != j
    ensures Good(r) && Runs(r.table, j)
    ensures Rank(r, j) <= Others(s.table, j, NR_TASKS) + if s.table[j].counter == 0 then Budget(s.table, j, NR_TASKS)
        else 0
  {
    RechargedSound(s.table);
    OthersRecharged(s.table, j, NR_TASKS);
    OthersBounds(s.table, j, NR_TASKS, 0);
    if !exists k :: Ready(s.table, k) {
      assert !Ready(s.table, j);
      assert Ready(r.table, j);
    }
  }

  lemma RankTick(s: State, j: int)
    requires Good(s) && Runs(s.table, j) && s.current != j
    ensures Good(State(Counted(s), s.current)) && Runs(Counted(s), j) && Counted(s)[j] == s.table[j]
    ensures Budget(Counted(s), j, NR_TASKS) == Budget(s.table, j, NR_TASKS)
    ensures Others(Counted(s), j, NR_TASKS) == Others(s.table, j, NR_TASKS) - if s.table[s.current].counter > 0 then 1
        else 0
  {
    CountedSound(s);
    OthersChange(s.table, Counted(s), j, NR_TASKS, s.current);
  }

  /** While a runnable task waits, its rank never grows, and every user-mode tick lowers it. */
  lemma RankStep(s: State, e: Event, r: State, j: int)
    requires Good(s) && Step(s, e, r) && Runs(s.table, j) && Runs(r.table, j) && s.current != j && r.current != j
    ensures Good(r) && Rank(r, j) + (if e.UserTick? then 1 else 0) <= Rank(s, j)
  {
    hide Others, Budget;
    StepKeeps(s, e, r);
    match e
    case UserTick =>
      RankTick(s, j);
      if s.table[s.current].counter <= 1 {
        RankScheduled(State(Counted(s), s.current), r, j);
      }
    case KernelTick => RankTick(s, j);
    case Sleep(state) =>
      var t := s.table[s.current := s.table[s.current].(state := state)];
      OthersChange(s.table, t, j, NR_TASKS, s.current);
      SleepSound(s, state);
      RankScheduled(State(t, s.current), r, j);
    case Wake(k) => OthersChange(s.table, r.table, j, NR_TASKS, k);
  }

  lemma SleepSound(s: State, state: int)
    requires Good(s)
    ensures Good(s.(table := s.table[s.current := s.table[s.current].(state := state)]))
  {
  }

  /** A run: events and the states they lead to. */
  ghost predicate Path(s: State, es: seq<Event>, rs: seq<State>)
    decreases |es|
  {
    |es| == |rs| && Good(s) && (es == [] || (Step(s, es[0], rs[0]) && Path(rs[0], es[1..], rs[1..])))
  }

  function UserTicks(es: seq<Event>): nat {
    if es == [] then 0 else (if es[0].UserTick? then 1 else 0) + UserTicks(es[1..])
  }

  /** No starvation: through any run of ticks, sleeps and wake-ups in which a task stays runnable and never gets the
      processor, there are no more user-mode ticks than its rank. */
  lemma {:induction false} NoStarvation(s: State, es: seq<Event>, rs: seq<State>, j: int)
    requires Path(s, es, rs) && Runs(s.table, j) && s.current != j
    requires forall i :: 0 <= i < |rs| ==> Runs(rs[i].table, j) && rs[i].current != j
    ensures UserTicks(es) <= Rank(s, j)
    decreases |es|
  {
    if es == [] {
      OthersBounds(s.table, j, NR_TASKS, 0);
    } else {
      RankStep(s, es[0], rs[0], j);
      NoStarvation(rs[0], es[1..], rs[1..], j);
    }
  }

  /** With time left, the wait is no longer than the time the others have left, and one tick more only if the current
      task has none. */
  lemma WaitWithTimeLeft(s: State, es: seq<Event>, rs: seq<State>, j: int)
    requires Path(s, es, rs) && Ready(s.table, j) && s.current != j
    requires forall i :: 0 <= i < |rs| ==> Runs(rs[i].table, j) && rs[i].current != j
    ensures UserTicks(es) <= Others(s.table, j, NR_TASKS) + if s.table[s.current].counter == 0 then 1 else 0
  {
    NoStarvation(s, es, rs, j);
  }

  /** Counters stay in range and the set of tasks stays the same over every run. */
  lemma {:induction false} PathKeeps(s: State, es: seq<Event>, rs: seq<State>)
    requires Path(s, es, rs)
    ensures forall i :: 0 <= i < |rs| ==> Good(rs[i]) && forall k :: 0 <= k < NR_TASKS ==>
        (rs[i].table[k].Free? <==> s.table[k].Free?)
    decreases |es|
  {
    if es != [] {
      StepKeeps(s, es[0], rs[0]);
      PathKeeps(rs[0], es[1..], rs[1..]);
      assert forall i :: 0 < i < |rs| ==> rs[i] == rs[1..][i - 1];
    }
  }
}
