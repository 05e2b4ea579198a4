/** The configuration registry as a value: an append-only list with lookup by level and type. */
module ConfigRegistry {
  import opened Results
  import opened Levels

  datatype ConfigType =
    | Enabled | ToFile | ToStandardOutput | Format | Filename | SubsecondPrecision
    | PerformanceTracking | MaxLogFileSize | LogFlushThreshold | UnknownType

  datatype Config = Config(level: Level, ctype: ConfigType, value: string)

  type Registry = seq<Config>

  /** The levels that `forEachLevel` visits, in its order: the powers of two from Trace to Info. */
  const EACH_LEVEL := [Trace, Debug, Fatal, Error, Warning, Verbose, Info]

  predicate Each(level: Level) {
    level != Global && level != Unknown
  }

  lemma EachLevelExactly(level: Level)
    ensures Each(level) <==> level in EACH_LEVEL
  {
    assert EACH_LEVEL[0] == Trace && EACH_LEVEL[1] == Debug && EACH_LEVEL[2] == Fatal && EACH_LEVEL[3] == Error;
    assert EACH_LEVEL[4] == Warning && EACH_LEVEL[5] == Verbose && EACH_LEVEL[6] == Info;
  }

  predicate Is(c: Config, level: Level, ctype: ConfigType) {
    c.level == level && c.ctype == ctype
  }

  /** `RegistryWithPred::get`: the position of the first entry for the key, or `|r|`. */
  function Position(r: Registry, level: Level, ctype: ConfigType): (p: nat)
    ensures p <= |r|
    ensures p < |r| ==> Is(r[p], level, ctype)
    ensures forall i :: 0 <= i < p ==> !Is(r[i], level, ctype)
  {
    if r == [] || Is(r[0], level, ctype) then 0 else 1 + Position(r[1..], level, ctype)
  }

  function Lookup(r: Registry, level: Level, ctype: ConfigType): Option<string> {
    var p := Position(r, level, ctype);
    if p == |r| then None else Some(r[p].value)
  }

  /** `unsafeSet` without its propagation: the entry's value is set, or an entry is appended. */
  function Put(r: Registry, level: Level, ctype: ConfigType, value: string): Registry {
    var p := Position(r, level, ctype);
    if p == |r| then r + [Config(level, ctype, value)] else r[p := r[p].(value := value)]
  }

  function PutEach(r: Registry, levels: seq<Level>, ctype: ConfigType, value: string): Registry {
    if levels == [] then r
    else Put(PutEach(r, levels[..|levels| - 1], ctype, value), levels[|levels| - 1], ctype, value)
  }

  /** `unsafeSet`: a value for the Global level is given to every other level too. */
  function UnsafeSet(r: Registry, level: Level, ctype: ConfigType, value: string): Registry {
    if level == Global then PutEach(Put(r, level, ctype, value), EACH_LEVEL, ctype, value)
    else Put(r, level, ctype, value)
  }

  /** `set`, which propagates once more. */
  function Set(r: Registry, level: Level, ctype: ConfigType, value: string): Registry {
    if level == Global then PutEach(UnsafeSet(r, level, ctype, value), EACH_LEVEL, ctype, value)
    else UnsafeSet(r, level, ctype, value)
  }

  // ---------------------------------------------------------------- what setting does

  /** What determines the position of a key. */
  lemma {:induction false} PositionIs(r: Registry, level: Level, ctype: ConfigType, p: nat)
    requires p <= |r| && (p < |r| ==> Is(r[p], level, ctype))
    requires forall i :: 0 <= i < p ==> !Is(r[i], level, ctype)
    ensures Position(r, level, ctype) == p
  {
  }

  lemma LookupAfterPut(r: Registry, level: Level, ctype: ConfigType, value: string, l: Level, t: ConfigType)
    ensures Lookup(Put(r, level, ctype, value), l, t) ==
            if l == level && t == ctype then Some(value) else Lookup(r, l, t)
  {
    if Position(r, level, ctype) == |r| {
      LookupAfterAppend(r, Config(level, ctype, value), l, t);
    } else {
      LookupAfterUpdate(r, Position(r, level, ctype), value, l, t);
    }
  }

  lemma {:induction false} LookupAfterAppend(r: Registry, c: Config, l: Level, t: ConfigType)
    requires Position(r, c.level, c.ctype) == |r|
    ensures Lookup(r + [c], l, t) == if Is(c, l, t) then Some(c.value) else Lookup(r, l, t)
  {
    var p := Position(r, l, t);
    PositionIs(r + [c], l, t, if p == |r| && !Is(c, l, t) then |r| + 1 else p);
  }

  lemma LookupAfterUpdate(r: Registry, q: nat, value: string, l: Level, t: ConfigType)
    requires q < |r| && Position(r, r[q].level, r[q].ctype) == q
    ensures Lookup(r[q := r[q].(value := value)], l, t) == if Is(r[q], l, t) then Some(value) else Lookup(r, l, t)
  {
    var r' := r[q := r[q].(value := value)];
    var p := Position(r, l, t);
    forall i | 0 <= i < p
      ensures !Is(r'[i], l, t)
    {
      assert !Is(r[i], l, t);
    }
    PositionIs(r', l, t, p);
  }

  lemma {:induction false} LookupAfterPutEach(r: Registry, levels: seq<Level>, ctype: ConfigType, value: string,
                                              l: Level, t: ConfigType)
    ensures Lookup(PutEach(r, levels, ctype, value), l, t) ==
            if l in levels && t == ctype then Some(value) else Lookup(r, l, t)
  {
    if levels != [] {
      var before := levels[..|levels| - 1];
      LookupAfterPutEach(r, before, ctype, value, l, t);
      LookupAfterPut(PutEach(r, before, ctype, value), levels[|levels| - 1], ctype, value, l, t);
      assert l in levels <==> l in before || l == levels[|levels| - 1];
    }
  }

  /** An entry for `level` decides the value of key `(l, t)`. */
  predicate Affects(level: Level, ctype: ConfigType, l: Level, t: ConfigType) {
    ctype == t && (level == l || (level == Global && Each(l)))
  }

  /** Setting a key changes that key and, for Global, the key of every level; nothing else. */
  lemma LookupAfterSet(r: Registry, level: Level, ctype: ConfigType, value: string, l: Level, t: ConfigType)
    ensures Lookup(Set(r, level, ctype, value), l, t) ==
            if Affects(level, ctype, l, t) then Some(value) else Lookup(r, l, t)
    ensures Lookup(UnsafeSet(r, level, ctype, value), l, t) == Lookup(Set(r, level, ctype, value), l, t)
  {
    EachLevelExactly(l);
    LookupAfterPut(r, level, ctype, value, l, t);
    if level == Global {
      var once := Put(r, level, ctype, value);
      LookupAfterPutEach(once, EACH_LEVEL, ctype, value, l, t);
      LookupAfterPutEach(PutEach(once, EACH_LEVEL, ctype, value), EACH_LEVEL, ctype, value, l, t);
    }
  }

  // ---------------------------------------------------------------- copying a base

  function SetFromBase(r: Registry, base: Registry): Registry {
    if base == [] then r
    else
      var c := base[|base| - 1];
      Set(SetFromBase(r, base[..|base| - 1]), c.level, c.ctype, c.value)
  }

  /** The value of the last entry of the base that decides the key. */
  function LastSet(base: Registry, l: Level, t: ConfigType): Option<string> {
    if base == [] then None
    else
      var c := base[|base| - 1];
      if Affects(c.level, c.ctype, l, t) then Some(c.value) else LastSet(base[..|base| - 1], l, t)
  }

  lemma {:induction false} LookupAfterCopy(r: Registry, base: Registry, l: Level, t: ConfigType)
    ensures Lookup(SetFromBase(r, base), l, t) ==
            if LastSet(base, l, t).Some? then LastSet(base, l, t) else Lookup(r, l, t)
  {
    if base != [] {
      var before, c := base[..|base| - 1], base[|base| - 1];
      LookupAfterCopy(r, before, l, t);
      LookupAfterSet(SetFromBase(r, before), c.level, c.ctype, c.value, l, t);
    }
  }

  ghost predicate UniqueKeys(r: Registry) {
    forall i, j :: 0 <= i < j < |r| ==> !Is(r[j], r[i].level, r[i].ctype)
  }

  /** A type that has a Global entry has an entry for every level. */
  ghost predicate Closed(r: Registry) {
    forall l, t :: Lookup(r, Global, t).Some? && Each(l) ==> Lookup(r, l, t).Some?
  }

  /** An entry that stands in front of its type's Global entry has the same value. */
  ghost predicate Settled(r: Registry) {
    forall i, g :: 0 <= i < g < |r| && r[g].level == Global && r[i].ctype == r[g].ctype && Each(r[i].level)
                   ==> r[i].value == r[g].value
  }

  /** The copy has the base's value where the base has one, and its own elsewhere. */
  ghost predicate Faithful(r: Registry, base: Registry, copy: Registry) {
    forall l, t :: Lookup(copy, l, t) == if Lookup(base, l, t).Some? then Lookup(base, l, t) else Lookup(r, l, t)
  }

  /** With unique keys the entry that stands for a key is the one that is looked up. */
  lemma {:induction false} LookupUnique(r: Registry, i: nat)
    requires UniqueKeys(r) && i < |r|
    ensures Position(r, r[i].level, r[i].ctype) == i
    ensures Lookup(r, r[i].level, r[i].ctype) == Some(r[i].value)
  {
    PositionIs(r, r[i].level, r[i].ctype, i);
  }

  /** The last deciding entry, or none. */
  lemma {:induction false} LastSetIs(base: Registry, l: Level, t: ConfigType) returns (k: int)
    ensures -1 <= k < |base|
    ensures forall i :: k < i < |base| ==> !Affects(base[i].level, base[i].ctype, l, t)
    ensures if k == -1 then LastSet(base, l, t) == None
            else Affects(base[k].level, base[k].ctype, l, t) && LastSet(base, l, t) == Some(base[k].value)
  {
    if base == [] {
      k := -1;
    } else if Affects(base[|base| - 1].level, base[|base| - 1].ctype, l, t) {
      k := |base| - 1;
    } else {
      k := LastSetIs(base[..|base| - 1], l, t);
    }
  }

  /** Under the two conditions the last deciding entry gives the value that is looked up. */
  lemma {:induction false} LastSetAgrees(base: Registry, l: Level, t: ConfigType)
    requires UniqueKeys(base) && Closed(base) && Settled(base)
    ensures LastSet(base, l, t) == Lookup(base, l, t)
  {
    var k := LastSetIs(base, l, t);
    var p := Position(base, l, t);
    if p < |base| {
      assert Affects(base[p].level, base[p].ctype, l, t);
    }
    if k != -1 {
      if base[k].level == l {
        LookupUnique(base, k);
      } else {
        LookupUnique(base, k);
        assert Lookup(base, l, base[k].ctype).Some?;
        assert p < k;
      }
    }
  }

  lemma {:induction false} AgreementIsClosed(base: Registry)
    requires forall l, t :: LastSet(base, l, t) == Lookup(base, l, t)
    ensures Closed(base)
  {
    forall l, t | Lookup(base, Global, t).Some? && Each(l)
      ensures Lookup(base, l, t).Some?
    {
      var g := Position(base, Global, t);
      var k := LastSetIs(base, l, t);
      assert Affects(base[g].level, base[g].ctype, l, t);
    }
  }

  lemma {:induction false} AgreementIsSettled(base: Registry)
    requires UniqueKeys(base)
    requires forall l, t :: LastSet(base, l, t) == Lookup(base, l, t)
    ensures Settled(base)
  {
    forall i, g | 0 <= i < g < |base| && base[g].level == Global && base[i].ctype == base[g].ctype && Each(base[i].level)
      ensures base[i].value == base[g].value
    {
      var l, t := base[i].level, base[g].ctype;
      var k := LastSetIs(base, l, t);
      assert Affects(base[g].level, base[g].ctype, l, t);
      LookupUnique(base, i);
      LookupUnique(base, g);
      LookupUnique(base, k);
    }
  }

  ghost predicate CopiesFaithfully(base: Registry) {
    forall r :: Faithful(r, base, SetFromBase(r, base))
  }

  lemma SettledCopies(base: Registry)
    requires UniqueKeys(base) && Closed(base) && Settled(base)
    ensures CopiesFaithfully(base)
  {
    forall r, l, t
      ensures Lookup(SetFromBase(r, base), l, t) ==
              if Lookup(base, l, t).Some? then Lookup(base, l, t) else Lookup(r, l, t)
    {
      LastSetAgrees(base, l, t);
      LookupAfterCopy(r, base, l, t);
    }
  }

  /**
   Copying is faithful for every target if and only if each Global entry of the base comes with an
   entry for every level, and those in front of it have its value already.
   */
  lemma CopyFaithfulExactly(base: Registry)
    requires UniqueKeys(base)
    ensures CopiesFaithfully(base) <==> Closed(base) && Settled(base)
  {
    if Closed(base) && Settled(base) {
      SettledCopies(base);
    }
    if CopiesFaithfully(base) {
      assert Faithful([], base, SetFromBase([], base));
      forall l, t
        ensures LastSet(base, l, t) == Lookup(base, l, t)
      {
        LookupAfterCopy([], base, l, t);
        assert Lookup([], l, t) == None;
      }
      AgreementIsClosed(base);
      AgreementIsSettled(base);
    }
  }
}

/** Whole histories of a registry, and what they establish. */
module ConfigHistory {
  import opened Results
  import opened Levels
  import opened ConfigRegistry

  datatype Op =
    | SetOp(level: Level, ctype: ConfigType, value: string)
    | SetIfAbsent(level: Level, ctype: ConfigType, value: string)
    | CopyFrom(base: Registry)
    | ClearAll

  function Step(r: Registry, op: Op): Registry {
    match op
    case SetOp(level, ctype, value) => Set(r, level, ctype, value)
    case SetIfAbsent(level, ctype, value) =>
      if Lookup(r, level, ctype).None? then UnsafeSet(r, level, ctype, value) else r
    case CopyFrom(base) => SetFromBase(r, base)
    case ClearAll => []
  }

  function Run(ops: seq<Op>): Registry {
    if ops == [] then [] else Step(Run(ops[..|ops| - 1]), ops[|ops| - 1])
  }

  // ---------------------------------------------------------------- keys stay unique

  lemma PutUnique(r: Registry, level: Level, ctype: ConfigType, value: string)
    requires UniqueKeys(r)
    ensures UniqueKeys(Put(r, level, ctype, value))
  {
  }

  lemma {:induction false} PutEachUnique(r: Registry, levels: seq<Level>, ctype: ConfigType, value: string)
    requires UniqueKeys(r)
    ensures UniqueKeys(PutEach(r, levels, ctype, value))
  {
    if levels != [] {
      PutEachUnique(r, levels[..|levels| - 1], ctype, value);
      PutUnique(PutEach(r, levels[..|levels| - 1], ctype, value), levels[|levels| - 1], ctype, value);
    }
  }

  lemma SetUnique(r: Registry, level: Level, ctype: ConfigType, value: string)
    requires UniqueKeys(r)
    ensures UniqueKeys(UnsafeSet(r, level, ctype, value))
    ensures UniqueKeys(Set(r, level, ctype, value))
  {
    PutUnique(r, level, ctype, value);
    if level == Global {
      PutEachUnique(Put(r, level, ctype, value), EACH_LEVEL, ctype, value);
      PutEachUnique(UnsafeSet(r, level, ctype, value), EACH_LEVEL, ctype, value);
    }
  }

  // ---------------------------------------------------------------- Global implies every level

  lemma SetClosed(r: Registry, level: Level, ctype: ConfigType, value: string)
    requires Closed(r)
    ensures Closed(Set(r, level, ctype, value))
    ensures Closed(UnsafeSet(r, level, ctype, value))
  {
    forall l, t
      ensures Lookup(Set(r, level, ctype, value), l, t) ==
              if Affects(level, ctype, l, t) then Some(value) else Lookup(r, l, t)
      ensures Lookup(UnsafeSet(r, level, ctype, value), l, t) == Lookup(Set(r, level, ctype, value), l, t)
    {
      LookupAfterSet(r, level, ctype, value, l, t);
    }
  }

  // ---------------------------------------------------------------- who came first

  /** The level of the first entry of a type. */
  function FirstOf(r: Registry, t: ConfigType): Option<Level> {
    if r == [] then None
    else if r[0].ctype == t then Some(r[0].level)
    else FirstOf(r[1..], t)
  }

  /** What setting the type at a level makes of the first level so far. */
  function Earlier(first: Option<Level>, ctype: ConfigType, level: Level, t: ConfigType): Option<Level> {
    if first.None? && ctype == t then Some(level) else first
  }

  lemma {:induction false} FirstOfConcat(a: Registry, b: Registry, t: ConfigType)
    ensures FirstOf(a + b, t) == if FirstOf(a, t).Some? then FirstOf(a, t) else FirstOf(b, t)
  {
    if a == [] {
      assert a + b == b;
    } else {
      FirstOfConcat(a[1..], b, t);
      assert (a + b)[1..] == a[1..] + b;
    }
  }

  lemma {:induction false} FirstOfIgnoresValues(a: Registry, b: Registry, t: ConfigType)
    requires |a| == |b|
    requires forall i :: 0 <= i < |a| ==> a[i].level == b[i].level && a[i].ctype == b[i].ctype
    ensures FirstOf(a, t) == FirstOf(b, t)
  {
    if a != [] {
      FirstOfIgnoresValues(a[1..], b[1..], t);
    }
  }

  lemma {:induction false} FirstOfPresent(r: Registry, i: nat)
    requires i < |r|
    ensures FirstOf(r, r[i].ctype).Some?
  {
    if i > 0 {
      FirstOfPresent(r[1..], i - 1);
    }
  }

  lemma {:induction false} FirstAfterPut(r: Registry, level: Level, ctype: ConfigType, value: string, t: ConfigType)
    ensures FirstOf(Put(r, level, ctype, value), t) == Earlier(FirstOf(r, t), ctype, level, t)
  {
    var p := Position(r, level, ctype);
    if p == |r| {
      FirstOfConcat(r, [Config(level, ctype, value)], t);
    } else {
      FirstOfPresent(r, p);
      FirstOfIgnoresValues(r, Put(r, level, ctype, value), t);
    }
  }

  lemma {:induction false} FirstAfterPutEach(r: Registry, levels: seq<Level>, ctype: ConfigType, value: string,
                                             t: ConfigType)
    requires FirstOf(r, ctype).Some?
    ensures FirstOf(PutEach(r, levels, ctype, value), t) == FirstOf(r, t)
  {
    if levels != [] {
      FirstAfterPutEach(r, levels[..|levels| - 1], ctype, value, t);
      FirstAfterPut(PutEach(r, levels[..|levels| - 1], ctype, value), levels[|levels| - 1], ctype, value, t);
    }
  }

  lemma {:induction false} FirstAfterSet(r: Registry, level: Level, ctype: ConfigType, value: string, t: ConfigType)
    ensures FirstOf(UnsafeSet(r, level, ctype, value), t) == Earlier(FirstOf(r, t), ctype, level, t)
    ensures FirstOf(Set(r, level, ctype, value), t) == Earlier(FirstOf(r, t), ctype, level, t)
  {
    FirstAfterPut(r, level, ctype, value, t);
    FirstAfterPut(r, level, ctype, value, ctype);
    if level == Global {
      var once := Put(r, level, ctype, value);
      FirstAfterPutEach(once, EACH_LEVEL, ctype, value, t);
      FirstAfterPutEach(once, EACH_LEVEL, ctype, value, ctype);
      FirstAfterPutEach(UnsafeSet(r, level, ctype, value), EACH_LEVEL, ctype, value, t);
    }
  }

  /** Copying, setting by setting. */
  lemma {:induction false} CopyKeeps(r: Registry, base: Registry, t: ConfigType)
    requires UniqueKeys(r) && Closed(r)
    ensures UniqueKeys(SetFromBase(r, base)) && Closed(SetFromBase(r, base))
    ensures FirstOf(SetFromBase(r, base), t) == if FirstOf(r, t).Some? then FirstOf(r, t) else FirstOf(base, t)
  {
    if base != [] {
      var before, c := base[..|base| - 1], base[|base| - 1];
      CopyKeeps(r, before, t);
      SetUnique(SetFromBase(r, before), c.level, c.ctype, c.value);
      SetClosed(SetFromBase(r, before), c.level, c.ctype, c.value);
      FirstAfterSet(SetFromBase(r, before), c.level, c.ctype, c.value, t);
      FirstOfConcat(before, [c], t);
      assert before + [c] == base;
    }
  }

  /** The level at which a type was first set since the registry was last cleared. */
  function FirstSet(ops: seq<Op>, t: ConfigType): Option<Level> {
    if ops == [] then None
    else
      var first := FirstSet(ops[..|ops| - 1], t);
      match ops[|ops| - 1]
      case SetOp(level, ctype, _) => Earlier(first, ctype, level, t)
      case SetIfAbsent(level, ctype, _) => Earlier(first, ctype, level, t)
      case CopyFrom(base) => if first.Some? then first else FirstOf(base, t)
      case ClearAll => None
  }

  /**
   After every history keys are unique, a Global value comes with a value for every level, and the
   first entry of each type stands for the level at which the type was first set.
   */
  lemma {:induction false} RunKeeps(ops: seq<Op>, t: ConfigType)
    ensures UniqueKeys(Run(ops))
    ensures Closed(Run(ops))
    ensures FirstOf(Run(ops), t) == FirstSet(ops, t)
  {
    if ops == [] {
      assert forall l, u :: Lookup([], l, u) == None;
    } else {
      var r := Run(ops[..|ops| - 1]);
      RunKeeps(ops[..|ops| - 1], t);
      match ops[|ops| - 1]
      case SetOp(level, ctype, value) =>
        SetUnique(r, level, ctype, value);
        SetClosed(r, level, ctype, value);
        FirstAfterSet(r, level, ctype, value, t);
      case SetIfAbsent(level, ctype, value) =>
        SetUnique(r, level, ctype, value);
        SetClosed(r, level, ctype, value);
        FirstAfterSet(r, level, ctype, value, t);
        if Lookup(r, level, ctype).Some? {
          FirstOfPresent(r, Position(r, level, ctype));
        }
      case CopyFrom(base) => CopyKeeps(r, base, t);
      case ClearAll =>
        assert forall l, u :: Lookup([], l, u) == None;
    }
  }

  lemma {:induction false} FirstOfIs(r: Registry, t: ConfigType) returns (f: nat)
    requires FirstOf(r, t).Some?
    ensures f < |r| && r[f].ctype == t && FirstOf(r, t) == Some(r[f].level)
    ensures forall i :: 0 <= i < f ==> r[i].ctype != t
  {
    if r[0].ctype == t {
      f := 0;
    } else {
      var g := FirstOfIs(r[1..], t);
      f := g + 1;
    }
  }

  /** No entry of the type stands in front of its Global entry. */
  ghost predicate GlobalInFront(r: Registry, t: ConfigType) {
    forall i, g :: 0 <= i < g < |r| && r[g].level == Global && r[g].ctype == t ==> r[i].ctype != t
  }

  /** The Global entry is in front exactly when the type was first set at Global or never at Global. */
  lemma {:induction false} GlobalInFrontExactly(ops: seq<Op>, t: ConfigType)
    ensures GlobalInFront(Run(ops), t) <==> FirstSet(ops, t) == Some(Global) || Lookup(Run(ops), Global, t).None?
  {
    var r := Run(ops);
    RunKeeps(ops, t);
    if Lookup(r, Global, t).Some? {
      var g := Position(r, Global, t);
      FirstOfPresent(r, g);
      var f := FirstOfIs(r, t);
      if r[f].level == Global {
        LookupUnique(r, f);
        forall i, h | 0 <= i < h < |r| && r[h].level == Global && r[h].ctype == t
          ensures r[i].ctype != t
        {
          LookupUnique(r, h);
        }
      } else {
        assert f < g;
        assert r[f].ctype == t;
      }
    }
  }

  /** In a history where every type is first set at Global, the registry copies faithfully. */
  lemma {:induction false} GlobalFirstCopies(ops: seq<Op>)
    requires forall t :: FirstSet(ops, t).Some? ==> FirstSet(ops, t) == Some(Global)
    ensures CopiesFaithfully(Run(ops))
  {
    var r := Run(ops);
    RunKeeps(ops, Enabled);
    forall t
      ensures GlobalInFront(r, t)
    {
      RunKeeps(ops, t);
      GlobalInFrontExactly(ops, t);
      if Lookup(r, Global, t).Some? {
        FirstOfPresent(r, Position(r, Global, t));
      }
    }
    forall i, g | 0 <= i < g < |r| && r[g].level == Global
      ensures r[i].ctype != r[g].ctype
    {
      assert GlobalInFront(r, r[g].ctype);
    }
    SettledCopies(r);
  }

  /** After every history, the registry copies faithfully if and only if it is settled. */
  lemma {:induction false} RunCopiesExactly(ops: seq<Op>)
    ensures CopiesFaithfully(Run(ops)) <==> Settled(Run(ops))
  {
    RunKeeps(ops, Enabled);
    CopyFaithfulExactly(Run(ops));
  }

  /** A level that was set before Global and has a value of its own loses it in the copy. */
  lemma {:induction false} EarlierLevelDoesNotCopy(ops: seq<Op>, t: ConfigType, level: Level, own: string, global: string)
    requires FirstSet(ops, t) == Some(level) && Each(level) && own != global
    requires Lookup(Run(ops), level, t) == Some(own) && Lookup(Run(ops), Global, t) == Some(global)
    ensures !CopiesFaithfully(Run(ops))
  {
    var r := Run(ops);
    RunKeeps(ops, t);
    var f := FirstOfIs(r, t);
    LookupUnique(r, f);
    var g := Position(r, Global, t);
    assert f < g && r[f].value == own && r[g].value == global;
    RunCopiesExactly(ops);
  }

  lemma {:induction false} AfterSet(ops: seq<Op>, level: Level, ctype: ConfigType, value: string, l: Level, t: ConfigType)
    ensures var after := ops + [SetOp(level, ctype, value)];
            && Lookup(Run(after), l, t) == (if Affects(level, ctype, l, t) then Some(value) else Lookup(Run(ops), l, t))
            && FirstSet(after, t) == Earlier(FirstSet(ops, t), ctype, level, t)
  {
    var after := ops + [SetOp(level, ctype, value)];
    assert after[..|after| - 1] == ops;
    LookupAfterSet(Run(ops), level, ctype, value, l, t);
  }

  /** Such a history: the level, then Global, then the level again. */
  lemma LateGlobalDoesNotCopy()
    ensures !CopiesFaithfully(Run([SetOp(Debug, Format, "a"), SetOp(Global, Format, "b"), SetOp(Debug, Format, "c")]))
  {
    var one, two := [] + [SetOp(Debug, Format, "a")], [SetOp(Debug, Format, "a"), SetOp(Global, Format, "b")];
    var ops := two + [SetOp(Debug, Format, "c")];
    assert two == one + [SetOp(Global, Format, "b")];
    assert ops == [SetOp(Debug, Format, "a"), SetOp(Global, Format, "b"), SetOp(Debug, Format, "c")];
    AfterSet([], Debug, Format, "a", Debug, Format);
    AfterSet(one, Global, Format, "b", Global, Format);
    AfterSet(two, Debug, Format, "c", Global, Format);
    AfterSet(two, Debug, Format, "c", Debug, Format);
    EarlierLevelDoesNotCopy(ops, Format, Debug, "c", "b");
  }
}

/** The registry object. */
module ConfigObject {
  import opened Levels
  import opened ConfigRegistry

  /** `LevelHelper::castFromInt` on the values of the enumeration. */
  function LevelOf(n: nat): Level {
    match n
    case 1 => Global
    case 2 => Trace
    case 4 => Debug
    case 8 => Fatal
    case 16 => Error
    case 32 => Warning
    case 64 => Verbose
    case 128 => Info
    case _ => Unknown
  }

  function Pow2(k: nat): nat {
    if k == 0 then 1 else 2 * Pow2(k - 1)
  }

  /** The index after `k` shifts, and the level it stands for. */
  lemma {:induction false} ShiftedIndex(k: nat)
    requires k <= 7
    ensures k < 7 ==> 2 * Pow2(k) <= 128 && LevelOf(2 * Pow2(k)) == EACH_LEVEL[k]
    ensures k == 7 ==> 2 * Pow2(k) > 128
  {
    assert Pow2(1) == 2 && Pow2(2) == 4 && Pow2(3) == 8;
    assert Pow2(4) == 16 && Pow2(5) == 32 && Pow2(6) == 64 && Pow2(7) == 128;
  }

  class Configurations {
    var list: Registry

    constructor ()
      ensures list == []
    {
      list := [];
    }

    method UnsafeSet(level: Level, ctype: ConfigType, value: string)
      modifies this
      ensures list == ConfigRegistry.UnsafeSet(old(list), level, ctype, value)
      decreases if level == Global then 2 else 0
    {
      var p := Position(list, level, ctype);
      if p == |list| {
        list := list + [Config(level, ctype, value)];
      } else {
        list := list[p := list[p].(value := value)];
      }
      if level == Global {
        UnsafeSetGlobally(ctype, value);
      }
    }

    /** `forEachLevel`: the index starts at Trace and is shifted until it has passed Info. */
    method UnsafeSetGlobally(ctype: ConfigType, value: string)
      modifies this
      ensures list == PutEach(old(list), EACH_LEVEL, ctype, value)
      decreases 1
    {
      var index := 2;
      ghost var k := 0;
      while index <= 128
        invariant 0 <= k <= 7 && index == 2 * Pow2(k)
        invariant list == PutEach(old(list), EACH_LEVEL[..k], ctype, value)
        decreases 7 - k
      {
        ShiftedIndex(k);
        var level := LevelOf(index);
        assert level != Global by {
          EachLevelExactly(level);
        }
        UnsafeSet(level, ctype, value);
        assert EACH_LEVEL[..k + 1][..k] == EACH_LEVEL[..k];
        index := index * 2;
        k := k + 1;
      }
      ShiftedIndex(k);
      assert EACH_LEVEL[..7] == EACH_LEVEL;
    }

    method Set(level: Level, ctype: ConfigType, value: string)
      modifies this
      ensures list == ConfigRegistry.Set(old(list), level, ctype, value)
    {
      UnsafeSet(level, ctype, value);
      if level == Global {
        UnsafeSetGlobally(ctype, value);
      }
    }

    /** Nothing happens without a base or with the registry itself as its base. */
    method SetFromBase(base: Configurations?)
      modifies this
      ensures list == if base == null || base == this then old(list)
                      else ConfigRegistry.SetFromBase(old(list), old(base.list))
    {
      if base == null || base == this {
        return;
      }
      for i := 0 to |base.list|
        invariant base.list == old(base.list)
        invariant list == ConfigRegistry.SetFromBase(old(list), base.list[..i])
      {
        assert base.list[..i + 1][..i] == base.list[..i];
        var c := base.list[i];
        Set(c.level, c.ctype, c.value);
      }
      assert base.list[..|base.list|] == base.list;
    }
  }
}
