/**
 The category filter under concurrency.  `setCategories`, `clearCategories` and queries take the
 registry's lock, but `Loggers::allowed` reads the threshold before it does.  A system state is the
 shared variables and what each thread is about to do; one step is one access to a shared variable.
 */
module QuickReject {
  import opened Results
  import opened Levels
  import opened Glob
  import opened CategoryText
  import Filter = CategoryFilter

  /** What a thread does next. */
  datatype Pc =
    | Idle
    // setCategories, with the entries that its text parses to
    | SetWant(clear: bool, items: seq<Category>)
    | SetLocked(clear: bool, items: seq<Category>)
    | SetLowered(items: seq<Category>)
    | SetEmptied(items: seq<Category>)
    | SetInsert(items: seq<Category>)
    | SetPushed(items: seq<Category>)
    | SetVoided(items: seq<Category>)
    | SetCompared(items: seq<Category>, raise: bool)
    // clearCategories
    | ClearWant | ClearLocked | ClearEmptied | ClearVoided | ClearReset
    // Loggers::allowed
    | AskStart(level: Level, category: string)
    | AskWant(level: Level, category: string)
    | AskLocked(level: Level, category: string)
    | AskAnswered

  datatype System = System(
    holder: Option<nat>, categories: seq<Category>, cache: map<string, int>, lowest: int, threads: seq<Pc>)

  datatype Event =
    | Begin(op: Pc)
    | Internal
    | Rejected(level: Level, category: string)
    | Answered(level: Level, category: string, allowed: bool)

  function Goto(s: System, t: nat, pc: Pc): System
    requires t < |s.threads|
  {
    s.(threads := s.threads[t := pc])
  }

  function Acquire(s: System, t: nat, pc: Pc): System
    requires t < |s.threads|
  {
    Goto(s, t, pc).(holder := Some(t))
  }

  function Release(s: System, t: nat): System
    requires t < |s.threads|
  {
    Goto(s, t, Idle).(holder := None)
  }

  /** Thread `t` takes one step. */
  ghost predicate Next(s: System, t: nat, e: Event, s': System) {
    && t < |s.threads|
    && match s.threads[t]
       case Idle =>
         && e.Begin?
         && (e.op.SetWant? || e.op.ClearWant? || e.op.AskStart? || e.op.AskWant?)
         && s' == Goto(s, t, e.op)
       case SetWant(clear, items) =>
         e == Internal && s.holder.None? && s' == Acquire(s, t, SetLocked(clear, items))
       case SetLocked(clear, items) =>
         && e == Internal
         && s' == if clear then Goto(s, t, SetLowered(items)).(lowest := 0) else Goto(s, t, SetInsert(items))
       case SetLowered(items) =>
         e == Internal && s' == Goto(s, t, SetEmptied(items)).(categories := [])
       case SetEmptied(items) =>
         e == Internal && s' == Goto(s, t, SetInsert(items)).(cache := map[])
       case SetInsert(items) =>
         && e == Internal
         && s' == if items == [] then Release(s, t)
                  else Goto(s, t, SetPushed(items)).(categories := s.categories + [items[0]])
       case SetPushed(items) =>
         e == Internal && s' == Goto(s, t, SetVoided(items)).(cache := map[])
       case SetVoided(items) =>
         && e == Internal && items != []
         && s' == Goto(s, t, SetCompared(items, Priority(items[0].level) > s.lowest))
       case SetCompared(items, raise) =>
         && e == Internal && items != []
         && s' == Goto(s, t, SetInsert(items[1..])).(lowest := if raise then Priority(items[0].level) else s.lowest)
       case ClearWant =>
         e == Internal && s.holder.None? && s' == Acquire(s, t, ClearLocked)
       case ClearLocked =>
         e == Internal && s' == Goto(s, t, ClearEmptied).(categories := [])
       case ClearEmptied =>
         e == Internal && s' == Goto(s, t, ClearVoided).(cache := map[])
       case ClearVoided =>
         e == Internal && s' == Goto(s, t, ClearReset).(lowest := Filter.INT_MAX)
       case ClearReset =>
         e == Internal && s' == Release(s, t)
       case AskStart(level, category) =>
         if Priority(level) > s.lowest
         then e == Rejected(level, category) && s' == Goto(s, t, Idle)
         else e == Internal && s' == Goto(s, t, AskWant(level, category))
       case AskWant(level, category) =>
         e == Internal && s.holder.None? && s' == Acquire(s, t, AskLocked(level, category))
       case AskLocked(level, category) =>
         var r := Filter.Registry(s.categories, s.cache, s.lowest, "");
         var (r', allowed) := Filter.PriorityAllowed(r, Priority(level), category);
         e == Answered(level, category, allowed) && s' == Goto(s, t, AskAnswered).(cache := r'.cache)
       case AskAnswered =>
         e == Internal && s' == Release(s, t)
  }

  ghost predicate Init(s: System) {
    && s.holder.None? && s.categories == [] && s.cache == map[] && s.lowest == Filter.INT_MAX
    && forall t :: 0 <= t < |s.threads| ==> s.threads[t] == Idle
  }

  // ---------------------------------------------------------------- the invariant

  predicate Holds(pc: Pc) {
    !(pc.Idle? || pc.SetWant? || pc.ClearWant? || pc.AskStart? || pc.AskWant?)
  }

  /** The entry being inserted is in the list, and the threshold may not cover it yet. */
  predicate Uncovered(pc: Pc) {
    pc.SetPushed? || pc.SetVoided? || pc.SetCompared?
  }

  /** The list has changed and the memoised answers have not been dropped yet. */
  predicate Stale(pc: Pc) {
    pc.SetEmptied? || pc.SetPushed? || pc.ClearEmptied?
  }

  function HolderPc(s: System): Pc {
    if s.holder.Some? && s.holder.value < |s.threads| then s.threads[s.holder.value] else Idle
  }

  /** The list that the threshold speaks about. */
  function Covered(s: System): seq<Category> {
    var pc := HolderPc(s);
    if pc.SetLowered? then []
    else if Uncovered(pc) && s.categories != [] then s.categories[..|s.categories| - 1]
    else s.categories
  }

  ghost predicate Bounded(list: seq<Category>, lowest: int) {
    forall i :: 0 <= i < |list| ==> Priority(list[i].level) <= lowest
  }

  ghost predicate LockIsExclusive(s: System) {
    && (s.holder.Some? ==> s.holder.value < |s.threads|)
    && forall t :: 0 <= t < |s.threads| ==> (Holds(s.threads[t]) <==> s.holder == Some(t))
  }

  /** The entry being inserted is the last one, and the comparison made for it still holds. */
  ghost predicate InsertConsistent(s: System) {
    var pc := HolderPc(s);
    Uncovered(pc) ==>
      && pc.items != [] && s.categories != []
      && s.categories[|s.categories| - 1] == pc.items[0]
      && (pc.SetCompared? ==> pc.raise == (Priority(pc.items[0].level) > s.lowest))
  }

  ghost predicate Inv(s: System) {
    && LockIsExclusive(s)
    && Bounded(Covered(s), s.lowest)
    && InsertConsistent(s)
    && (!Stale(HolderPc(s)) ==> Filter.CacheAgrees(s.categories, s.cache))
    && s.lowest >= 0
  }

  lemma InitInv(s: System)
    requires Init(s)
    ensures Inv(s)
  {
  }

  lemma NextKeepsExclusive(s: System, t: nat, e: Event, s': System)
    requires LockIsExclusive(s) && Next(s, t, e, s')
    ensures LockIsExclusive(s')
    ensures Holds(s.threads[t]) ==> HolderPc(s) == s.threads[t]
    ensures !Holds(s.threads[t]) && !Holds(s'.threads[t]) ==> HolderPc(s') == HolderPc(s) && s'.holder == s.holder
    ensures Holds(s'.threads[t]) ==> HolderPc(s') == s'.threads[t]
    ensures !Holds(s.threads[t]) && Holds(s'.threads[t]) ==> s.holder.None?
  {
    assert Holds(s.threads[t]) <==> s.holder == Some(t);
  }

  lemma {:induction false} CacheGrows(r: Filter.Registry, pri: int, category: string)
    requires Filter.CacheAgrees(r.categories, r.cache)
    ensures Filter.CacheAgrees(r.categories, Filter.PriorityAllowed(r, pri, category).0.cache)
    ensures pri >= 0 ==>
              Filter.PriorityAllowed(r, pri, category).1 == (pri <= Filter.LastMatch(r.categories, category))
  {
  }

  /** No step puts a category above the lowest priority that the fast path rejects by. */
  lemma NextKeepsBounded(s: System, t: nat, e: Event, s': System)
    requires Inv(s) && Next(s, t, e, s')
    ensures Bounded(Covered(s'), s'.lowest) && s'.lowest >= 0
  {
    NextKeepsExclusive(s, t, e, s');
    if s.threads[t].SetInsert? && s.threads[t].items != [] {
      assert s'.categories[..|s'.categories| - 1] == s.categories;
    }
    if s.threads[t].SetCompared? {
      assert s.categories == Covered(s) + [s.threads[t].items[0]];
    }
  }

  /** A thread without the lock does not touch the list or the threshold. */
  lemma OthersKeepInsert(s: System, t: nat, e: Event, s': System)
    requires Inv(s) && Next(s, t, e, s') && !Holds(s.threads[t])
    ensures InsertConsistent(s')
  {
    NextKeepsExclusive(s, t, e, s');
  }

  lemma HolderKeepsInsert(s: System, t: nat, e: Event, s': System)
    requires Inv(s) && Next(s, t, e, s') && Holds(s.threads[t])
    ensures InsertConsistent(s')
  {
    NextKeepsExclusive(s, t, e, s');
  }

  lemma NextKeepsInsert(s: System, t: nat, e: Event, s': System)
    requires Inv(s) && Next(s, t, e, s')
    ensures InsertConsistent(s')
  {
    if Holds(s.threads[t]) {
      HolderKeepsInsert(s, t, e, s');
    } else {
      OthersKeepInsert(s, t, e, s');
    }
  }

  lemma NextKeepsCache(s: System, t: nat, e: Event, s': System)
    requires Inv(s) && Next(s, t, e, s')
    ensures !Stale(HolderPc(s')) ==> Filter.CacheAgrees(s'.categories, s'.cache)
  {
    NextKeepsExclusive(s, t, e, s');
    if s.threads[t].AskLocked? {
      CacheGrows(Filter.Registry(s.categories, s.cache, s.lowest, ""),
                 Priority(s.threads[t].level), s.threads[t].category);
    }
  }

  lemma NextKeepsInv(s: System, t: nat, e: Event, s': System)
    requires Inv(s) && Next(s, t, e, s')
    ensures Inv(s')
  {
    NextKeepsExclusive(s, t, e, s');
    NextKeepsBounded(s, t, e, s');
    NextKeepsInsert(s, t, e, s');
    NextKeepsCache(s, t, e, s');
  }

  // ---------------------------------------------------------------- whole runs

  datatype Move = Move(thread: nat, event: Event)

  /** `states[k]` is followed by `states[k + 1]` when move `k` is made. */
  ghost predicate IsRun(states: seq<System>, moves: seq<Move>) {
    && |states| == |moves| + 1
    && Init(states[0])
    && forall k :: 0 <= k < |moves| ==> Next(states[k], moves[k].thread, moves[k].event, states[k + 1])
  }

  lemma {:induction false} RunInv(states: seq<System>, moves: seq<Move>, k: nat)
    requires IsRun(states, moves) && k < |states|
    ensures Inv(states[k])
  {
    if k == 0 {
      InitInv(states[0]);
    } else {
      RunInv(states, moves, k - 1);
      NextKeepsInv(states[k - 1], moves[k - 1].thread, moves[k - 1].event, states[k]);
    }
  }

  /**
   In every run, an answer given under the lock is what the plain scan of the list says at that
   moment, and the thread that gives it holds the lock.
   */
  lemma AnswersAreExact(states: seq<System>, moves: seq<Move>, k: nat)
    requires IsRun(states, moves) && k < |moves| && moves[k].event.Answered?
    ensures states[k].holder == Some(moves[k].thread)
    ensures var e := moves[k].event;
            e.allowed == Filter.ScanAllows(states[k].categories, e.level, e.category)
  {
    RunInv(states, moves, k);
    var s, e := states[k], moves[k].event;
    assert Next(s, moves[k].thread, e, states[k + 1]);
    assert s.threads[moves[k].thread].AskLocked?;
    NextKeepsExclusive(s, moves[k].thread, e, states[k + 1]);
    CacheGrows(Filter.Registry(s.categories, s.cache, s.lowest, ""), Priority(e.level), e.category);
  }

  /** No `setCategories` is changing the threshold or the list. */
  predicate Quiet(s: System) {
    !HolderPc(s).SetLowered? && !Uncovered(HolderPc(s))
  }

  /**
   In every run, a quick rejection is right for the list that the threshold covers, and hence for the
   list itself whenever no `setCategories` is in the middle of a change.
   */
  lemma RejectionsAreCovered(states: seq<System>, moves: seq<Move>, k: nat)
    requires IsRun(states, moves) && k < |moves| && moves[k].event.Rejected?
    ensures var e := moves[k].event;
            && Covered(states[k]) <= states[k].categories
            && !Filter.ScanAllows(Covered(states[k]), e.level, e.category)
            && (Quiet(states[k]) ==> !Filter.ScanAllows(states[k].categories, e.level, e.category))
  {
    RunInv(states, moves, k);
    var s, e := states[k], moves[k].event;
    assert Next(s, moves[k].thread, e, states[k + 1]);
    assert s.threads[moves[k].thread].AskStart?;
    Filter.LastMatchBelow(Covered(s), e.category, s.lowest);
  }

  /** The entry that is being inserted allows the query. */
  predicate InsertedAllows(pc: Pc, level: Level, category: string) {
    && Uncovered(pc) && pc.items != []
    && Filter.CategoryMatches(pc.items[0], category)
    && Priority(level) <= Priority(pc.items[0].level)
  }

  /** The list with the entry that is being inserted. */
  lemma InsertedScan(s: System, level: Level, category: string)
    requires Inv(s) && Uncovered(HolderPc(s)) && !Filter.ScanAllows(Covered(s), level, category)
    ensures Filter.ScanAllows(s.categories, level, category) <==> InsertedAllows(HolderPc(s), level, category)
  {
    var n := |s.categories| - 1;
    assert s.categories[n] == HolderPc(s).items[0] && s.categories[..n] == Covered(s);
  }

  /**
   In every run, the list in place allows a query that is rejected without the lock if and only if a
   `setCategories` has lowered the threshold, not yet emptied the list, and the list allows the query, or
   a `setCategories` has inserted an entry, not yet raised the threshold, and the entry allows the query.
   */
  lemma WrongRejectionsExactly(states: seq<System>, moves: seq<Move>, k: nat)
    requires IsRun(states, moves) && k < |moves| && moves[k].event.Rejected?
    ensures var e, s := moves[k].event, states[k];
            Filter.ScanAllows(s.categories, e.level, e.category) <==>
            || (HolderPc(s).SetLowered? && Filter.ScanAllows(s.categories, e.level, e.category))
            || InsertedAllows(HolderPc(s), e.level, e.category)
  {
    var e, s := moves[k].event, states[k];
    RunInv(states, moves, k);
    RejectionsAreCovered(states, moves, k);
    if Uncovered(HolderPc(s)) {
      InsertedScan(s, e.level, e.category);
    }
  }

  // ---------------------------------------------------------------- a wrong rejection

  ghost predicate Reachable(s: System) {
    exists states, moves :: IsRun(states, moves) && states[|states| - 1] == s
  }

  lemma Extend(states: seq<System>, moves: seq<Move>, t: nat, e: Event, s': System)
    requires IsRun(states, moves) && Next(states[|states| - 1], t, e, s')
    ensures IsRun(states + [s'], moves + [Move(t, e)])
  {
    var states', moves' := states + [s'], moves + [Move(t, e)];
    forall k | 0 <= k < |moves'| ensures Next(states'[k], moves'[k].thread, moves'[k].event, states'[k + 1]) {
      if k < |moves| {
        assert Next(states[k], moves[k].thread, moves[k].event, states[k + 1]);
      }
    }
  }

  lemma Reach(s: System, t: nat, e: Event, s': System)
    requires Reachable(s) && Next(s, t, e, s')
    ensures Reachable(s')
  {
    var states, moves :| IsRun(states, moves) && states[|states| - 1] == s;
    Extend(states, moves, t, e, s');
    assert (states + [s'])[|states + [s']| - 1] == s';
  }

  /** Thread 0 at the given place of an otherwise idle system of two threads. */
  function Alone(holder: Option<nat>, list: seq<Category>, lowest: int, pc: Pc): System {
    System(holder, list, map[], lowest, [pc, Idle])
  }

  /** One entry is inserted; the threshold is out of the way. */
  lemma ReachInserted(list: seq<Category>, items: seq<Category>)
    requires items != [] && Reachable(Alone(Some(0), list, Filter.INT_MAX, SetInsert(items)))
    ensures Reachable(Alone(Some(0), list + [items[0]], Filter.INT_MAX, SetInsert(items[1..])))
  {
    var after := list + [items[0]];
    Reach(Alone(Some(0), list, Filter.INT_MAX, SetInsert(items)), 0, Internal,
          Alone(Some(0), after, Filter.INT_MAX, SetPushed(items)));
    Reach(Alone(Some(0), after, Filter.INT_MAX, SetPushed(items)), 0, Internal,
          Alone(Some(0), after, Filter.INT_MAX, SetVoided(items)));
    Reach(Alone(Some(0), after, Filter.INT_MAX, SetVoided(items)), 0, Internal,
          Alone(Some(0), after, Filter.INT_MAX, SetCompared(items, false)));
    Reach(Alone(Some(0), after, Filter.INT_MAX, SetCompared(items, false)), 0, Internal,
          Alone(Some(0), after, Filter.INT_MAX, SetInsert(items[1..])));
  }

  lemma {:induction false} ReachAllInserted(list: seq<Category>, items: seq<Category>)
    requires Reachable(Alone(Some(0), list, Filter.INT_MAX, SetInsert(items)))
    ensures Reachable(Alone(Some(0), list + items, Filter.INT_MAX, SetInsert([])))
    decreases |items|
  {
    if items == [] {
      assert list + items == list;
    } else {
      ReachInserted(list, items);
      ReachAllInserted(list + [items[0]], items[1..]);
      assert list + [items[0]] + items[1..] == list + items;
    }
  }

  /** Every list is reached. */
  lemma ReachList(list: seq<Category>)
    ensures Reachable(Alone(None, list, Filter.INT_MAX, Idle))
  {
    var s0 := Alone(None, [], Filter.INT_MAX, Idle);
    assert IsRun([s0], []) && [s0][|[s0]| - 1] == s0;
    Reach(s0, 0, Begin(SetWant(false, list)), Alone(None, [], Filter.INT_MAX, SetWant(false, list)));
    Reach(Alone(None, [], Filter.INT_MAX, SetWant(false, list)), 0, Internal,
          Alone(Some(0), [], Filter.INT_MAX, SetLocked(false, list)));
    Reach(Alone(Some(0), [], Filter.INT_MAX, SetLocked(false, list)), 0, Internal,
          Alone(Some(0), [], Filter.INT_MAX, SetInsert(list)));
    ReachAllInserted([], list);
    assert [] + list == list;
    Reach(Alone(Some(0), list, Filter.INT_MAX, SetInsert([])), 0, Internal, Alone(None, list, Filter.INT_MAX, Idle));
  }

  /**
   Outside of quiet states the rejection can be wrong: for all lists `list` and `items`, in some run a
   query below the highest severity is rejected while a clearing `setCategories` replaces `list` by
   `items` and the list still is `list`, whatever the two lists allow.
   */
  lemma LoweringRejects(list: seq<Category>, items: seq<Category>, level: Level, category: string)
    returns (states: seq<System>, moves: seq<Move>)
    requires Priority(level) > 0
    ensures IsRun(states, moves) && moves != []
    ensures var k := |moves| - 1;
            && moves[k] == Move(1, Rejected(level, category))
            && states[k].categories == list
            && |states[k].threads| == 2 && states[k].threads[0] == SetLowered(items)
  {
    var s0 := Alone(None, list, Filter.INT_MAX, Idle);
    var s1 := Goto(s0, 1, AskStart(level, category));
    var s2 := Goto(s1, 0, SetWant(true, items));
    var s3 := Acquire(s2, 0, SetLocked(true, items));
    var s4 := Goto(s3, 0, SetLowered(items)).(lowest := 0);
    var s5 := Goto(s4, 1, Idle);
    ReachList(list);
    Reach(s0, 1, Begin(AskStart(level, category)), s1);
    Reach(s1, 0, Begin(SetWant(true, items)), s2);
    Reach(s2, 0, Internal, s3);
    Reach(s3, 0, Internal, s4);
    var before, made :| IsRun(before, made) && before[|before| - 1] == s4;
    Extend(before, made, 1, Rejected(level, category), s5);
    states, moves := before + [s5], made + [Move(1, Rejected(level, category))];
  }

  /** Such a query that both lists allow: a debug message in a category that both list at debug level. */
  lemma AllowedIsRejected() returns (states: seq<System>, moves: seq<Move>)
    ensures IsRun(states, moves) && moves != []
    ensures var k := |moves| - 1;
            && moves[k].event == Rejected(Debug, "net")
            && Filter.ScanAllows(states[k].categories, Debug, "net")
            && |states[k].threads| == 2 && states[k].threads[0].SetLowered?
            && Filter.ScanAllows(states[k].threads[0].items, Debug, "net")
  {
    var list, items := [Category("net", Debug)], [Category("net", Debug), Category("db", Info)];
    assert CStr("net") == "net" && CStr("db") == "db";
    assert Matches("net", "net") && !Matches("db", "net");
    assert items[..1] == list;
    assert Filter.LastMatch(list, "net") == Priority(Debug);
    states, moves := LoweringRejects(list, items, Debug, "net");
  }

  /** A clearing set without entries leaves the threshold at the highest severity. */
  lemma ReachCleared()
    ensures Reachable(Alone(None, [], 0, Idle))
  {
    var start := Alone(None, [], Filter.INT_MAX, SetWant(true, []));
    ReachList([]);
    Reach(Alone(None, [], Filter.INT_MAX, Idle), 0, Begin(SetWant(true, [])), start);
    Reach(start, 0, Internal, Alone(Some(0), [], Filter.INT_MAX, SetLocked(true, [])));
    Reach(Alone(Some(0), [], Filter.INT_MAX, SetLocked(true, [])), 0, Internal, Alone(Some(0), [], 0, SetLowered([])));
    Reach(Alone(Some(0), [], 0, SetLowered([])), 0, Internal, Alone(Some(0), [], 0, SetEmptied([])));
    Reach(Alone(Some(0), [], 0, SetEmptied([])), 0, Internal, Alone(Some(0), [], 0, SetInsert([])));
    Reach(Alone(Some(0), [], 0, SetInsert([])), 0, Internal, Alone(None, [], 0, Idle));
  }

  /**
   A set that does not clear rejects wrongly as well: for every entry and every query below the highest
   severity, in some run the query is rejected while the entry alone is in the list.
   */
  lemma InsertingRejects(c: Category, level: Level, category: string)
    returns (states: seq<System>, moves: seq<Move>)
    requires Priority(level) > 0
    ensures IsRun(states, moves) && moves != []
    ensures var k := |moves| - 1;
            && moves[k] == Move(1, Rejected(level, category))
            && states[k].categories == [c]
            && |states[k].threads| == 2 && states[k].threads[0] == SetPushed([c])
  {
    var s0 := Alone(None, [], 0, Idle);
    var s1 := Goto(s0, 1, AskStart(level, category));
    var s2 := Goto(s1, 0, SetWant(false, [c]));
    var s3 := Acquire(s2, 0, SetLocked(false, [c]));
    var s4 := Goto(s3, 0, SetInsert([c]));
    var s5 := Goto(s4, 0, SetPushed([c])).(categories := [] + [c]);
    var s6 := Goto(s5, 1, Idle);
    ReachCleared();
    Reach(s0, 1, Begin(AskStart(level, category)), s1);
    Reach(s1, 0, Begin(SetWant(false, [c])), s2);
    Reach(s2, 0, Internal, s3);
    Reach(s3, 0, Internal, s4);
    Reach(s4, 0, Internal, s5);
    var before, made :| IsRun(before, made) && before[|before| - 1] == s5;
    Extend(before, made, 1, Rejected(level, category), s6);
    states, moves := before + [s6], made + [Move(1, Rejected(level, category))];
  }

  /** Such a query that the inserted entry allows. */
  lemma InsertedIsRejected() returns (states: seq<System>, moves: seq<Move>)
    ensures IsRun(states, moves) && moves != []
    ensures var k := |moves| - 1;
            && moves[k].event == Rejected(Debug, "net")
            && Filter.ScanAllows(states[k].categories, Debug, "net")
            && |states[k].threads| == 2 && states[k].threads[0].SetPushed?
  {
    assert CStr("net") == "net" && Matches("net", "net");
    states, moves := InsertingRejects(Category("net", Debug), Debug, "net");
  }
}
