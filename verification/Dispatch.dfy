/**
 The dispatch protocol of log writers.  A writer finds a logger, locks it, collects its message in the
 logger's stream, and at the end either wins the global dispatch flag and goes through its loggers, or
 loses it and gives up.  Writers of several threads interleave, and a thread starts writers inside
 writers: while a message is built, while it is dispatched, to report a logger that is missing, and to
 announce the abort after a fatal message.
 */
module Dispatch {
  import opened Results

  type LoggerId = nat

  /** The logger that is told about missing loggers. */
  const DEFAULT: LoggerId := 0

  /** What a writer does next. */
  datatype Pc =
    | Lookup(id: LoggerId) | Missing | Acquire(id: LoggerId) | Decide   // initializeLogger
    | Building                                                          // operator<<
    | Test | Body | Dispatching | Advance | Finish                      // processDispatch
    | Done

  /**
   A writer: `ids` are the loggers still to come, `plain` tells which `initializeLogger` it uses,
   `locked` whether it owes a release, `critical` whether it stands between setting and clearing the
   flag, `lost` whether it found the flag set, `taken` and `given` count its acquisitions and releases.
   */
  datatype Writer = Writer(
    pc: Pc, ids: seq<LoggerId>, plain: bool, logger: Option<LoggerId>, proceed: bool,
    locked: bool, critical: bool, lost: bool, taken: nat, given: nat)

  function Fresh(id: LoggerId, ids: seq<LoggerId>, plain: bool): Writer {
    Writer(Lookup(id), ids, plain, None, false, false, false, false, 0, 0)
  }

  ghost predicate IsFresh(w: Writer) {
    w.pc.Lookup? && w == Fresh(w.pc.id, w.ids, w.plain)
  }

  /** What a step of a writer does outside of the writer. */
  datatype Effect =
    | Nothing | SetFlag | ClearFlag | Lock(id: LoggerId) | Unlock(id: LoggerId)
    | Write(id: LoggerId) | Start(w: Writer) | End

  /** Where `initializeLogger` returns to: the loop of the dispatch or the building of the message. */
  function After(w: Writer): Pc {
    if w.critical then Body else Building
  }

  /** A writer takes one step, seeing the given flag. */
  ghost predicate Moves(w: Writer, flag: bool, w': Writer, x: Effect) {
    match w.pc
    case Lookup(id) =>
      || (w' == w.(logger := Some(id), pc := Acquire(id)) && x == Nothing)
      || (!w.plain && w' == w.(logger := None, pc := Missing) && x == Start(Fresh(DEFAULT, [], false)))
      || (w.plain && w' == w.(logger := None, pc := After(w)) && x == Nothing)
    case Missing =>
      w' == w.(proceed := false, pc := After(w)) && x == Nothing
    case Acquire(id) =>
      w' == w.(locked := true, taken := w.taken + 1, pc := Decide) && x == Lock(id)
    case Decide =>
      && (w' == w.(proceed := true, pc := After(w)) || (!w.plain && w' == w.(proceed := false, pc := After(w))))
      && x == Nothing
    case Building =>
      || (w' == w.(pc := Test) && x == Nothing)
      || (w' == w && w.proceed && w.logger.Some? && x == Write(w.logger.value))
      || (w' == w && x.Start? && IsFresh(x.w))
    case Test =>
      if !flag then w' == w.(critical := true, pc := Body) && x == SetFlag
      else if w.proceed && w.logger.Some? then
        w' == w.(lost := true, locked := false, given := w.given + 1, pc := Done) && x == Unlock(w.logger.value)
      else w' == w.(lost := true, pc := Done) && x == Nothing
    case Body =>
      if w.proceed then
        w' == w.(pc := Dispatching) && (x == Nothing || (w.logger.Some? && x == Write(w.logger.value)))
      else if w.logger.Some? then
        w' == w.(locked := false, given := w.given + 1, pc := Advance) && x == Unlock(w.logger.value)
      else w' == w.(pc := Advance) && x == Nothing
    case Dispatching =>
      || (w' == w && x.Start? && IsFresh(x.w))
      || (w.logger.Some? && x == Unlock(w.logger.value) &&
          w' == w.(locked := false, given := w.given + 1, proceed := false, pc := Advance))
    case Advance =>
      || (w' == w && x.Start? && IsFresh(x.w))
      || (x == Nothing &&
          w' == if w.ids == [] then w.(pc := Finish) else w.(ids := w.ids[1..], pc := Lookup(w.ids[0])))
    case Finish =>
      w' == w.(critical := false, pc := Done) && x == ClearFlag
    case Done =>
      w' == w && x == End
  }

  // ---------------------------------------------------------------- one writer

  /** What holds of a writer at every point of its code. */
  ghost predicate WriterOk(w: Writer) {
    && w.taken == w.given + (if w.locked then 1 else 0)
    && (w.locked ==> w.logger.Some?)
    && match w.pc
       case Lookup(_) => !w.locked && !w.proceed && !w.lost
       case Missing => !w.locked && !w.proceed && !w.lost && w.logger.None?
       case Acquire(id) => !w.locked && !w.proceed && !w.lost && w.logger == Some(id)
       case Decide => w.locked && !w.lost
       case Building => !w.lost && !w.critical && (w.logger.Some? <==> w.locked) && (w.proceed ==> w.locked)
       case Test => !w.lost && !w.critical && (w.logger.Some? <==> w.locked) && (w.proceed ==> w.locked)
       case Body => !w.lost && w.critical && (w.logger.Some? <==> w.locked) && (w.proceed ==> w.locked)
       case Dispatching => !w.lost && w.critical && w.locked
       case Advance => !w.lost && w.critical && !w.locked && !w.proceed
       case Finish => !w.lost && w.critical && !w.locked && !w.proceed
       case Done => !w.critical && (w.locked <==> w.lost && !w.proceed && w.logger.Some?)
  }

  lemma MovesKeepsOk(w: Writer, flag: bool, w': Writer, x: Effect)
    requires WriterOk(w) && Moves(w, flag, w', x)
    ensures WriterOk(w')
    ensures x.Start? ==> WriterOk(x.w)
  {
  }

  /** What a writer owes: the logger it has locked. */
  function Debt(w: Writer): multiset<LoggerId> {
    if w.locked && w.logger.Some? then multiset{w.logger.value} else multiset{}
  }

  /** How each effect shows in the writer that has it: in what it owes and in whether it is inside. */
  ghost predicate Shows(w: Writer, w': Writer, x: Effect) {
    && (if x.SetFlag? then !w.critical && w'.critical
        else if x.ClearFlag? then w.critical && !w'.critical
        else w'.critical == w.critical)
    && (if x.Lock? then Debt(w) == multiset{} && Debt(w') == multiset{x.id}
        else if x.Unlock? then Debt(w) == multiset{x.id} && Debt(w') == multiset{}
        else Debt(w') == Debt(w))
    && (x.Write? ==> Debt(w) == multiset{x.id})
    && (x.Start? ==> Debt(x.w) == multiset{} && !x.w.critical)
    && (x.End? ==> w.pc == Done && w' == w && !w.critical)
  }

  lemma MovesShows(w: Writer, flag: bool, w': Writer, x: Effect)
    requires WriterOk(w) && Moves(w, flag, w', x)
    ensures Shows(w, w', x)
    ensures x.SetFlag? ==> !flag
  {
  }

  // ---------------------------------------------------------------- the system

  /** A recursive mutex that is held: by which thread, and how many times. */
  datatype Hold = Hold(thread: nat, count: nat)

  /** A thread: its nested writers, innermost last, and the acquisitions nobody will release any more. */
  datatype Thread = Thread(writers: seq<Writer>, leaked: multiset<LoggerId>)

  /** `dirty` are the loggers with something in their stream. */
  datatype System = System(flag: bool, locks: map<LoggerId, Hold>, dirty: set<LoggerId>, threads: seq<Thread>)

  function Top(th: Thread): Writer
    requires th.writers != []
  {
    th.writers[|th.writers| - 1]
  }

  function ThreadAfter(th: Thread, w': Writer, x: Effect): Thread
    requires th.writers != []
  {
    var others := th.writers[..|th.writers| - 1];
    match x
    case Start(w) => th.(writers := others + [w'] + [w])
    case End => Thread(others, th.leaked + Debt(w'))
    case _ => th.(writers := others + [w'])
  }

  function FlagAfter(flag: bool, x: Effect): bool {
    x.SetFlag? || (flag && !x.ClearFlag?)
  }

  function LocksAfter(locks: map<LoggerId, Hold>, t: nat, x: Effect): map<LoggerId, Hold> {
    match x
    case Lock(id) => locks[id := Hold(t, if id in locks then locks[id].count + 1 else 1)]
    case Unlock(id) =>
      if id !in locks then locks
      else if locks[id].count <= 1 then locks - {id}
      else locks[id := Hold(locks[id].thread, locks[id].count - 1)]
    case _ => locks
  }

  /** A logger's stream is emptied just before its mutex is released. */
  function DirtyAfter(dirty: set<LoggerId>, x: Effect): set<LoggerId> {
    match x
    case Write(id) => dirty + {id}
    case Unlock(id) => dirty - {id}
    case _ => dirty
  }

  /** A thread waits for a mutex that another thread holds. */
  ghost predicate Enabled(locks: map<LoggerId, Hold>, t: nat, x: Effect) {
    x.Lock? && x.id in locks ==> locks[x.id].thread == t
  }

  /** A step: the thread, the writer that moves (none when the thread starts one), and the effect. */
  datatype Event = Event(thread: nat, writer: Option<Writer>, effect: Effect)

  ghost predicate Starts(s: System, e: Event, s': System) {
    && e.thread < |s.threads|
    && s.threads[e.thread].writers == []
    && e.writer.None? && e.effect.Start? && IsFresh(e.effect.w)
    && s' == s.(threads := s.threads[e.thread := Thread([e.effect.w], s.threads[e.thread].leaked)])
  }

  ghost predicate Continues(s: System, e: Event, w': Writer, s': System) {
    && e.thread < |s.threads|
    && s.threads[e.thread].writers != []
    && e.writer == Some(Top(s.threads[e.thread]))
    && Moves(e.writer.value, s.flag, w', e.effect)
    && Enabled(s.locks, e.thread, e.effect)
    && s' == System(FlagAfter(s.flag, e.effect), LocksAfter(s.locks, e.thread, e.effect),
                    DirtyAfter(s.dirty, e.effect),
                    s.threads[e.thread := ThreadAfter(s.threads[e.thread], w', e.effect)])
  }

  /** A thread without writers starts one, or the innermost writer of a thread moves. */
  ghost predicate Next(s: System, e: Event, s': System) {
    Starts(s, e, s') || exists w' :: Continues(s, e, w', s')
  }

  ghost predicate Init(s: System) {
    && !s.flag && s.locks == map[] && s.dirty == {}
    && forall t :: 0 <= t < |s.threads| ==> s.threads[t] == Thread([], multiset{})
  }

  // ---------------------------------------------------------------- counting

  /** The writers of a thread that stand between setting and clearing the flag. */
  function Criticals(writers: seq<Writer>): nat {
    if writers == [] then 0
    else Criticals(writers[..|writers| - 1]) + if writers[|writers| - 1].critical then 1 else 0
  }

  function AllCriticals(threads: seq<Thread>): nat {
    if threads == [] then 0
    else AllCriticals(threads[..|threads| - 1]) + Criticals(threads[|threads| - 1].writers)
  }

  /** The locks that the writers of a thread owe. */
  function Owed(writers: seq<Writer>): multiset<LoggerId> {
    if writers == [] then multiset{}
    else Owed(writers[..|writers| - 1]) + Debt(writers[|writers| - 1])
  }

  function HeldBy(th: Thread): multiset<LoggerId> {
    Owed(th.writers) + th.leaked
  }

  /** How many times a thread holds a logger's mutex. */
  function Holds(s: System, t: nat, id: LoggerId): nat {
    if id in s.locks && s.locks[id].thread == t then s.locks[id].count else 0
  }

  lemma {:induction false} AllCriticalsUpdate(threads: seq<Thread>, t: nat, th: Thread)
    requires t < |threads|
    ensures AllCriticals(threads[t := th]) == AllCriticals(threads) - Criticals(threads[t].writers) + Criticals(th.writers)
  {
    var n := |threads| - 1;
    var after := threads[t := th];
    if t == n {
      assert after[..n] == threads[..n];
    } else {
      AllCriticalsUpdate(threads[..n], t, th);
      assert after[..n] == threads[..n][t := th];
    }
  }

  lemma {:induction false} AllCriticalsAtLeast(threads: seq<Thread>, t: nat)
    requires t < |threads|
    ensures Criticals(threads[t].writers) <= AllCriticals(threads)
  {
    var n := |threads| - 1;
    if t < n {
      AllCriticalsAtLeast(threads[..n], t);
    }
  }

  lemma {:induction false} PushOne(writers: seq<Writer>, w: Writer)
    ensures Criticals(writers + [w]) == Criticals(writers) + if w.critical then 1 else 0
    ensures Owed(writers + [w]) == Owed(writers) + Debt(w)
  {
    assert (writers + [w])[..|writers|] == writers;
  }

  lemma {:induction false} AfterStart(others: seq<Writer>, w': Writer, w: Writer)
    requires Debt(w) == multiset{} && !w.critical
    ensures Criticals(others + [w'] + [w]) == Criticals(others) + if w'.critical then 1 else 0
    ensures Owed(others + [w'] + [w]) == Owed(others) + Debt(w')
  {
    PushOne(others, w');
    PushOne(others + [w'], w);
  }

  lemma Reordered(a: multiset<LoggerId>, b: multiset<LoggerId>, c: multiset<LoggerId>)
    ensures a + (c + b) == a + b + c
  {
  }

  /** What the writers of a thread amount to after a move of the last one. */
  lemma WritersAfter(th: Thread, w': Writer, x: Effect)
    requires th.writers != []
    requires x.Start? ==> Debt(x.w) == multiset{} && !x.w.critical
    ensures var others, th' := th.writers[..|th.writers| - 1], ThreadAfter(th, w', x);
            && Criticals(th'.writers) == Criticals(others) + (if !x.End? && w'.critical then 1 else 0)
            && HeldBy(th') == Owed(others) + Debt(w') + th.leaked
  {
    var others := th.writers[..|th.writers| - 1];
    match x
    case End => Reordered(Owed(others), Debt(w'), th.leaked);
    case Start(w) => AfterStart(others, w', w);
    case _ => PushOne(others, w');
  }

  /** What a move does to the number of writers of its thread that are inside, and to a lock the thread holds. */
  lemma ThreadStep(th: Thread, w': Writer, x: Effect, id: LoggerId)
    requires th.writers != [] && Shows(Top(th), w', x)
    ensures var th' := ThreadAfter(th, w', x);
            && Criticals(th'.writers) == Criticals(th.writers) + (if x.SetFlag? then 1 else 0) - (if x.ClearFlag? then 1 else 0)
            && HeldBy(th')[id] == HeldBy(th)[id] + (if x == Lock(id) then 1 else 0) - (if x == Unlock(id) then 1 else 0)
  {
    WritersAfter(th, w', x);
  }

  // ---------------------------------------------------------------- the invariant

  ghost predicate WritersOk(s: System) {
    forall t, i :: 0 <= t < |s.threads| && 0 <= i < |s.threads[t].writers| ==> WriterOk(s.threads[t].writers[i])
  }

  /** The flag is set exactly while one writer stands between setting and clearing it. */
  ghost predicate FlagCounts(s: System) {
    AllCriticals(s.threads) == if s.flag then 1 else 0
  }

  /** Each mutex is held as often as its thread's writers owe it or have leaked it, and by nobody else. */
  ghost predicate LocksCount(s: System) {
    && (forall id :: id in s.locks ==> s.locks[id].count > 0 && s.locks[id].thread < |s.threads|)
    && forall t: nat, id :: t < |s.threads| ==> HeldBy(s.threads[t])[id] == Holds(s, t, id)
  }

  /** A logger that nobody has locked has an empty stream. */
  ghost predicate StreamsClean(s: System) {
    forall id :: id in s.dirty ==> id in s.locks
  }

  ghost predicate Inv(s: System) {
    WritersOk(s) && FlagCounts(s) && LocksCount(s) && StreamsClean(s)
  }

  lemma ContinuesKeepsWriters(s: System, e: Event, w': Writer, s': System)
    requires Inv(s) && Continues(s, e, w', s')
    ensures WritersOk(s')
  {
    MovesKeepsOk(e.writer.value, s.flag, w', e.effect);
  }

  lemma ContinuesKeepsFlag(s: System, e: Event, w': Writer, s': System)
    requires Inv(s) && Continues(s, e, w', s')
    ensures FlagCounts(s')
  {
    MovesShows(e.writer.value, s.flag, w', e.effect);
    ThreadStep(s.threads[e.thread], w', e.effect, DEFAULT);
    AllCriticalsUpdate(s.threads, e.thread, s'.threads[e.thread]);
  }

  /** A writer only releases a mutex that its own thread holds. */
  lemma ReleasesItsOwn(s: System, e: Event, w': Writer, s': System)
    requires Inv(s) && Continues(s, e, w', s') && (e.effect.Unlock? || e.effect.Write?)
    ensures e.effect.id in s.locks && s.locks[e.effect.id].thread == e.thread
  {
    var th := s.threads[e.thread];
    MovesShows(e.writer.value, s.flag, w', e.effect);
    assert e.effect.id in Debt(Top(th));
    assert HeldBy(th)[e.effect.id] == Holds(s, e.thread, e.effect.id);
  }

  /** Taking or releasing a mutex moves the count of its own thread by one, and no other. */
  lemma HoldsAfter(s: System, e: Event, w': Writer, s': System, t: nat, id: LoggerId)
    requires Inv(s) && Continues(s, e, w', s')
    ensures t == e.thread && e.effect == Lock(id) ==> Holds(s', t, id) == Holds(s, t, id) + 1
    ensures t == e.thread && e.effect == Unlock(id) ==> Holds(s', t, id) == Holds(s, t, id) - 1
    ensures !(t == e.thread && (e.effect == Lock(id) || e.effect == Unlock(id))) ==> Holds(s', t, id) == Holds(s, t, id)
  {
    if e.effect.Unlock? {
      ReleasesItsOwn(s, e, w', s');
    }
  }

  lemma HeldAfter(s: System, e: Event, w': Writer, s': System, t: nat, id: LoggerId)
    requires Inv(s) && Continues(s, e, w', s') && t < |s.threads|
    ensures HeldBy(s'.threads[t])[id] == Holds(s', t, id)
  {
    assert HeldBy(s.threads[t])[id] == Holds(s, t, id);
    HoldsAfter(s, e, w', s', t, id);
    MovesShows(e.writer.value, s.flag, w', e.effect);
    ThreadStep(s.threads[e.thread], w', e.effect, id);
  }

  lemma ContinuesKeepsLocks(s: System, e: Event, w': Writer, s': System)
    requires Inv(s) && Continues(s, e, w', s')
    ensures LocksCount(s')
  {
    forall t: nat, id | t < |s'.threads| ensures HeldBy(s'.threads[t])[id] == Holds(s', t, id) {
      HeldAfter(s, e, w', s', t, id);
    }
  }

  lemma ContinuesKeepsStreams(s: System, e: Event, w': Writer, s': System)
    requires Inv(s) && Continues(s, e, w', s')
    ensures StreamsClean(s')
  {
    if e.effect.Write? {
      ReleasesItsOwn(s, e, w', s');
    }
  }

  lemma StartsKeepsInv(s: System, e: Event, s': System)
    requires Inv(s) && Starts(s, e, s')
    ensures Inv(s')
  {
    AllCriticalsUpdate(s.threads, e.thread, s'.threads[e.thread]);
    PushOne([], e.effect.w);
    assert [] + [e.effect.w] == [e.effect.w];
    forall t: nat, id | t < |s'.threads| ensures HeldBy(s'.threads[t])[id] == Holds(s', t, id) {
      assert HeldBy(s.threads[t])[id] == Holds(s, t, id);
    }
  }

  lemma NextKeepsInv(s: System, e: Event, s': System)
    requires Inv(s) && Next(s, e, s')
    ensures Inv(s')
  {
    if Starts(s, e, s') {
      StartsKeepsInv(s, e, s');
    } else {
      var w' :| Continues(s, e, w', s');
      ContinuesKeepsWriters(s, e, w', s');
      ContinuesKeepsFlag(s, e, w', s');
      ContinuesKeepsLocks(s, e, w', s');
      ContinuesKeepsStreams(s, e, w', s');
    }
  }

  // ---------------------------------------------------------------- every run

  ghost predicate IsRun(states: seq<System>, events: seq<Event>) {
    && |states| == |events| + 1
    && Init(states[0])
    && forall i :: 0 <= i < |events| ==> Next(states[i], events[i], states[i + 1])
  }

  lemma InitInv(s: System)
    requires Init(s)
    ensures Inv(s)
  {
    NobodyInside(s.threads);
  }

  lemma {:induction false} RunInv(states: seq<System>, events: seq<Event>, k: nat)
    requires IsRun(states, events) && k < |states|
    ensures Inv(states[k])
  {
    if k == 0 {
      InitInv(states[0]);
    } else {
      RunInv(states, events, k - 1);
      NextKeepsInv(states[k - 1], events[k - 1], states[k]);
    }
  }

  lemma {:induction false} CountedOnce(writers: seq<Writer>, i: nat, j: nat)
    requires i < |writers| && j < |writers| && writers[i].critical && writers[j].critical
    ensures Criticals(writers) >= if i == j then 1 else 2
  {
    var n := |writers| - 1;
    if i < n && j < n {
      CountedOnce(writers[..n], i, j);
    } else if i < n {
      CountedOnce(writers[..n], i, i);
    } else if j < n {
      CountedOnce(writers[..n], j, j);
    }
  }

  lemma {:induction false} CountedApart(threads: seq<Thread>, t: nat, u: nat)
    requires t < u < |threads|
    ensures Criticals(threads[t].writers) + Criticals(threads[u].writers) <= AllCriticals(threads)
  {
    var n := |threads| - 1;
    if u == n {
      AllCriticalsAtLeast(threads[..n], t);
    } else {
      CountedApart(threads[..n], t, u);
    }
  }

  ghost predicate Inside(s: System, t: nat, i: nat) {
    t < |s.threads| && i < |s.threads[t].writers| && s.threads[t].writers[i].critical
  }

  /** Mutual exclusion: in every run, no two writers are ever between setting and clearing the flag. */
  lemma AtMostOneInside(states: seq<System>, events: seq<Event>, k: nat, t: nat, i: nat, u: nat, j: nat)
    requires IsRun(states, events) && k < |states|
    requires Inside(states[k], t, i) && Inside(states[k], u, j)
    ensures t == u && i == j && states[k].flag
  {
    var threads := states[k].threads;
    RunInv(states, events, k);
    CountedOnce(threads[t].writers, i, i);
    CountedOnce(threads[u].writers, j, j);
    AllCriticalsAtLeast(threads, t);
    if t < u {
      CountedApart(threads, t, u);
    } else if u < t {
      CountedApart(threads, u, t);
    } else if i != j {
      CountedOnce(threads[t].writers, i, j);
    }
  }

  /**
   In every run, a writer that ends has released every lock it took, once for each time it took one, if
   and only if it did not lose the flag while holding a logger it had not been allowed to log to.
   */
  lemma EndsReleasedExactly(states: seq<System>, events: seq<Event>, k: nat)
    requires IsRun(states, events) && k < |events| && events[k].effect.End?
    ensures events[k].writer.Some?
    ensures var w := events[k].writer.value;
            && (w.given == w.taken <==> !(w.lost && !w.proceed && w.logger.Some?))
            && (w.given != w.taken ==> w.given + 1 == w.taken)
            && states[k + 1].threads[events[k].thread].leaked
               == states[k].threads[events[k].thread].leaked + Debt(w)
            && (w.given == w.taken <==> Debt(w) == multiset{})
  {
    RunInv(states, events, k);
    var s, e, s' := states[k], events[k], states[k + 1];
    assert Next(s, e, s');
    assert !Starts(s, e, s');
    var w' :| Continues(s, e, w', s');
    MovesShows(e.writer.value, s.flag, w', e.effect);
  }

  ghost predicate Reachable(s: System) {
    exists states, events :: IsRun(states, events) && states[|states| - 1] == s
  }

  lemma Reach(s: System, e: Event, s': System)
    requires Reachable(s) && Next(s, e, s')
    ensures Reachable(s')
  {
    var states, events :| IsRun(states, events) && states[|states| - 1] == s;
    var states', events' := states + [s'], events + [e];
    forall i | 0 <= i < |events'| ensures Next(states'[i], events'[i], states'[i + 1]) {
      if i < |events| {
        assert Next(states[i], events[i], states[i + 1]);
      }
    }
    assert IsRun(states', events') && states'[|states'| - 1] == s';
  }

  /** The system with thread `t` running the single writer `w`. */
  ghost function With(s: System, t: nat, w: Writer): System
    requires t < |s.threads|
  {
    s.(threads := s.threads[t := Thread([w], multiset{})])
  }

  lemma ReachSolo(s: System, t: nat, w: Writer, w': Writer, x: Effect)
    requires t < |s.threads| && Reachable(With(s, t, w))
    requires Moves(w, s.flag, w', x) && Enabled(s.locks, t, x) && !x.Start? && !x.End?
    ensures Reachable(With(System(FlagAfter(s.flag, x), LocksAfter(s.locks, t, x), DirtyAfter(s.dirty, x), s.threads), t, w'))
  {
    var before := With(s, t, w);
    var after := With(System(FlagAfter(s.flag, x), LocksAfter(s.locks, t, x), DirtyAfter(s.dirty, x), s.threads), t, w');
    var th := before.threads[t];
    assert th.writers[..|th.writers| - 1] + [w'] == [w'];
    assert after.threads == before.threads[t := ThreadAfter(th, w', x)];
    assert Continues(before, Event(t, Some(w), x), w', after);
    Reach(before, Event(t, Some(w), x), after);
  }

  /** A thread without writers can bring one, on a free logger, to the test of the flag. */
  lemma ReachTest(s: System, t: nat, id: LoggerId, proceed: bool)
    requires t < |s.threads| && s.threads[t] == Thread([], multiset{}) && Reachable(s) && id !in s.locks
    ensures Reachable(With(s.(locks := s.locks[id := Hold(t, 1)]), t,
                           Writer(Test, [], false, Some(id), proceed, true, false, false, 1, 0)))
  {
    var w := Fresh(id, [], false);
    var locked := s.(locks := s.locks[id := Hold(t, 1)]);
    assert Starts(s, Event(t, None, Start(w)), With(s, t, w));
    Reach(s, Event(t, None, Start(w)), With(s, t, w));
    var w1 := w.(logger := Some(id), pc := Acquire(id));
    ReachSolo(s, t, w, w1, Nothing);
    var w2 := w1.(locked := true, taken := 1, pc := Decide);
    ReachSolo(s, t, w1, w2, Lock(id));
    var w3 := w2.(proceed := proceed, pc := Building);
    ReachSolo(locked, t, w2, w3, Nothing);
    ReachSolo(locked, t, w3, w3.(pc := Test), Nothing);
  }

  /** The exception is real: a writer that may not log and loses the flag leaves its logger locked. */
  lemma LosingLeaks() returns (s: System)
    ensures Reachable(s) && |s.threads| == 2
    ensures s.threads[1] == Thread([], multiset{1})
    ensures 1 in s.locks && s.locks[1] == Hold(1, 1)
  {
    var idle := Thread([], multiset{});
    var s0 := System(false, map[], {}, [idle, idle]);
    assert IsRun([s0], []);
    assert [s0][|[s0]| - 1] == s0;
    ReachTest(s0, 0, 0, true);
    var w0 := Writer(Test, [], false, Some(0), true, true, false, false, 1, 0);
    var s1 := s0.(locks := map[0 := Hold(0, 1)]);
    ReachSolo(s1, 0, w0, w0.(critical := true, pc := Body), SetFlag);
    var s2 := With(s1.(flag := true), 0, w0.(critical := true, pc := Body));
    ReachTest(s2, 1, 1, false);
    var w1 := Writer(Test, [], false, Some(1), false, true, false, false, 1, 0);
    var s3 := s2.(locks := s2.locks[1 := Hold(1, 1)]);
    var w2 := w1.(lost := true, pc := Done);
    ReachSolo(s3, 1, w1, w2, Nothing);
    var s4 := With(s3, 1, w2);
    s := s4.(threads := s4.threads[1 := Thread([], multiset{1})]);
    assert ThreadAfter(s4.threads[1], w2, End) == Thread([], multiset{1});
    assert Continues(s4, Event(1, Some(w2), End), w2, s);
    Reach(s4, Event(1, Some(w2), End), s);
  }

  lemma NextKeepsLeaked(s: System, e: Event, s': System, t: nat)
    requires Next(s, e, s') && t < |s.threads|
    ensures t < |s'.threads| && s.threads[t].leaked <= s'.threads[t].leaked
  {
  }

  lemma {:induction false} LeakedGrows(states: seq<System>, events: seq<Event>, k: nat, m: nat, t: nat)
    requires IsRun(states, events) && k <= m < |states| && t < |states[k].threads|
    ensures t < |states[m].threads| && states[k].threads[t].leaked <= states[m].threads[t].leaked
  {
    if k < m {
      LeakedGrows(states, events, k, m - 1, t);
      NextKeepsLeaked(states[m - 1], events[m - 1], states[m], t);
    }
  }

  /** A mutex that was leaked once stays with its thread for the rest of the run. */
  lemma LeakedForever(states: seq<System>, events: seq<Event>, k: nat, m: nat, t: nat, id: LoggerId)
    requires IsRun(states, events) && k <= m < |states| && t < |states[k].threads| && id in states[k].threads[t].leaked
    ensures id in states[m].locks && states[m].locks[id].thread == t
  {
    LeakedGrows(states, events, k, m, t);
    RunInv(states, events, m);
    assert HeldBy(states[m].threads[t])[id] == Holds(states[m], t, id);
  }

  /** In every run, a writer never releases a mutex, and never writes to a stream, that its thread does not hold. */
  lemma NeverReleasesOthers(states: seq<System>, events: seq<Event>, k: nat)
    requires IsRun(states, events) && k < |events| && (events[k].effect.Unlock? || events[k].effect.Write?)
    ensures events[k].effect.id in states[k].locks
    ensures states[k].locks[events[k].effect.id].thread == events[k].thread
  {
    RunInv(states, events, k);
    var s, e, s' := states[k], events[k], states[k + 1];
    assert Next(s, e, s');
    var w' :| Continues(s, e, w', s');
    ReleasesItsOwn(s, e, w', s');
  }

  /** In every run, once all writers have ended, a mutex is held exactly as often as it was leaked, and every
   other logger is free with an empty stream. */
  lemma QuietLoggersAreFree(states: seq<System>, events: seq<Event>, k: nat, id: LoggerId)
    requires IsRun(states, events) && k < |states|
    requires forall t :: 0 <= t < |states[k].threads| ==> states[k].threads[t].writers == []
    ensures !states[k].flag
    ensures id in states[k].locks
            <==> exists t :: 0 <= t < |states[k].threads| && id in states[k].threads[t].leaked
    ensures id !in states[k].locks ==> id !in states[k].dirty
  {
    var s := states[k];
    RunInv(states, events, k);
    NobodyInside(s.threads);
    if id in s.locks {
      assert HeldBy(s.threads[s.locks[id].thread])[id] == Holds(s, s.locks[id].thread, id);
    }
    forall t | 0 <= t < |s.threads| && id in s.threads[t].leaked ensures id in s.locks {
      assert HeldBy(s.threads[t])[id] == Holds(s, t, id);
    }
  }

  lemma {:induction false} NobodyInside(threads: seq<Thread>)
    requires forall t :: 0 <= t < |threads| ==> threads[t].writers == []
    ensures AllCriticals(threads) == 0
  {
    if threads != [] {
      NobodyInside(threads[..|threads| - 1]);
    }
  }
}
