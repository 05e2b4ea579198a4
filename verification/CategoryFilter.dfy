/** The category filter: last-match-wins list, memo cache and quick-reject threshold, as values. */
module CategoryFilter {
  import opened Results
  import opened Levels
  import opened Glob
  import opened CategoryText

  const INT_MAX := 0x7fff_ffff

  datatype Registry = Registry(
    categories: seq<Category>, cache: map<string, int>, lowest: int, text: string)

  const INITIAL := Registry([], map[], INT_MAX, "")

  // ---------------------------------------------------------------- the plain scan

  predicate CategoryMatches(c: Category, category: string) {
    Matches(CStr(c.name), CStr(category))
  }

  /** The priority of the last entry that matches, or -1: a scan from the end, without a cache. */
  function LastMatch(categories: seq<Category>, category: string): int {
    if categories == [] then -1
    else if CategoryMatches(categories[|categories| - 1], category)
    then Priority(categories[|categories| - 1].level)
    else LastMatch(categories[..|categories| - 1], category)
  }

  /** Some entry `i` matches, none after it does, and its priority is the answer; or none matches. */
  lemma {:induction false} LastMatchMeaning(categories: seq<Category>, category: string) returns (i: int)
    ensures -1 <= i < |categories|
    ensures forall j :: i < j < |categories| ==> !CategoryMatches(categories[j], category)
    ensures i == -1 <==> LastMatch(categories, category) == -1
    ensures i != -1 ==> && CategoryMatches(categories[i], category)
                        && LastMatch(categories, category) == Priority(categories[i].level)
  {
    if categories == [] {
      i := -1;
    } else if CategoryMatches(categories[|categories| - 1], category) {
      i := |categories| - 1;
    } else {
      i := LastMatchMeaning(categories[..|categories| - 1], category);
    }
  }

  /** The specification of the filter. */
  predicate ScanAllows(categories: seq<Category>, level: Level, category: string) {
    Priority(level) <= LastMatch(categories, category)
  }

  // ---------------------------------------------------------------- the threshold

  function Raise(lowest: int, categories: seq<Category>): int {
    if categories == [] then lowest
    else
      var before := Raise(lowest, categories[..|categories| - 1]);
      var p := Priority(categories[|categories| - 1].level);
      if p > before then p else before
  }

  lemma {:induction false} RaiseBounds(lowest: int, categories: seq<Category>)
    ensures lowest <= Raise(lowest, categories)
    ensures forall i :: 0 <= i < |categories| ==> Priority(categories[i].level) <= Raise(lowest, categories)
    ensures lowest >= 7 ==> Raise(lowest, categories) == lowest
  {
    if categories != [] {
      RaiseBounds(lowest, categories[..|categories| - 1]);
    }
  }

  lemma {:induction false} RaiseConcat(lowest: int, a: seq<Category>, b: seq<Category>)
    ensures Raise(lowest, a + b) == Raise(Raise(lowest, a), b)
  {
    if b == [] {
      assert a + b == a;
    } else {
      RaiseConcat(lowest, a, b[..|b| - 1]);
      assert (a + b)[..|a + b| - 1] == a + b[..|b| - 1];
    }
  }

  lemma {:induction false} LastMatchBelow(categories: seq<Category>, category: string, lowest: int)
    requires forall i :: 0 <= i < |categories| ==> Priority(categories[i].level) <= lowest
    ensures LastMatch(categories, category) <= lowest || LastMatch(categories, category) == -1
  {
    if categories != [] {
      LastMatchBelow(categories[..|categories| - 1], category, lowest);
    }
  }

  // ---------------------------------------------------------------- the operations

  /** `categories` is absent when the caller passes a null pointer. */
  function SetCategories(r: Registry, categories: Option<string>, clear: bool): Registry {
    var base := if clear then Registry([], map[], 0, "") else r;
    match categories
    case None => base
    case Some(s) =>
      var parsed := Parse(s);
      Registry(base.categories + parsed,
               if parsed == [] then base.cache else map[],
               Raise(base.lowest, parsed),
               Extend(base.text, s))
  }

  /** The accumulated text is not cleared here. */
  function ClearCategories(r: Registry): Registry {
    Registry([], map[], INT_MAX, r.text)
  }

  /** `priority_allowed`, with the cache it leaves behind. */
  function PriorityAllowed(r: Registry, pri: int, category: string): (Registry, bool) {
    if category in r.cache then (r, pri <= r.cache[category])
    else if r.categories == [] then (r, false)
    else
      var p := LastMatch(r.categories, category);
      (r.(cache := r.cache[category := p]), p >= 0 && pri <= p)
  }

  /** `Loggers::allowed`: a priority above the threshold is rejected without looking further. */
  function Allowed(r: Registry, level: Level, category: string): (Registry, bool) {
    if Priority(level) > r.lowest then (r, false) else PriorityAllowed(r, Priority(level), category)
  }

  // ---------------------------------------------------------------- what every operation keeps

  ghost predicate CacheAgrees(categories: seq<Category>, cache: map<string, int>) {
    forall c :: c in cache ==> cache[c] == LastMatch(categories, c)
  }

  /**
   Every cached answer is what the scan gives now, and the threshold is either out of the way or
   exactly the highest listed priority.
   */
  ghost predicate Coherent(r: Registry) {
    && CacheAgrees(r.categories, r.cache)
    && (r.lowest == INT_MAX || r.lowest == Raise(0, r.categories))
  }

  lemma {:induction false} AppendKeepsCoherent(r: Registry, parsed: seq<Category>, text: string)
    requires Coherent(r)
    ensures Coherent(Registry(r.categories + parsed, if parsed == [] then r.cache else map[],
                              Raise(r.lowest, parsed), text))
  {
    RaiseConcat(0, r.categories, parsed);
    RaiseBounds(INT_MAX, parsed);
    if parsed == [] {
      assert r.categories + parsed == r.categories;
    }
  }

  lemma SetKeepsCoherent(r: Registry, categories: Option<string>, clear: bool)
    requires Coherent(r)
    ensures Coherent(SetCategories(r, categories, clear))
  {
    if categories.Some? {
      AppendKeepsCoherent(if clear then Registry([], map[], 0, "") else r, Parse(categories.value),
                          SetCategories(r, categories, clear).text);
    }
  }

  lemma QueryKeepsCoherent(r: Registry, level: Level, category: string)
    requires Coherent(r)
    ensures Coherent(Allowed(r, level, category).0)
    ensures Allowed(r, level, category).1 == ScanAllows(r.categories, level, category)
    ensures Allowed(r, level, category).0.categories == r.categories
  {
    RaiseBounds(0, r.categories);
    LastMatchBelow(r.categories, category, if r.lowest == INT_MAX then 7 else r.lowest);
  }

  // ---------------------------------------------------------------- whole runs

  datatype Op =
    | Set(categories: Option<string>, clear: bool)
    | Clear
    | Query(level: Level, category: string)

  function Step(r: Registry, op: Op): Registry {
    match op
    case Set(categories, clear) => SetCategories(r, categories, clear)
    case Clear => ClearCategories(r)
    case Query(level, category) => Allowed(r, level, category).0
  }

  function Run(ops: seq<Op>): Registry {
    if ops == [] then INITIAL else Step(Run(ops[..|ops| - 1]), ops[|ops| - 1])
  }

  lemma {:induction false} RunCoherent(ops: seq<Op>)
    ensures Coherent(Run(ops))
  {
    if ops != [] {
      RunCoherent(ops[..|ops| - 1]);
      var r := Run(ops[..|ops| - 1]);
      match ops[|ops| - 1]
      case Set(categories, clear) => SetKeepsCoherent(r, categories, clear);
      case Clear =>
      case Query(level, category) => QueryKeepsCoherent(r, level, category);
    }
  }

  /** After any run, cache and threshold answer every query as the plain scan does. */
  lemma {:induction false} FilterRefinesScan(ops: seq<Op>, level: Level, category: string)
    ensures Allowed(Run(ops), level, category).1 == ScanAllows(Run(ops).categories, level, category)
  {
    RunCoherent(ops);
    QueryKeepsCoherent(Run(ops), level, category);
  }

  // ---------------------------------------------------------------- the accumulated text

  /** Every text since the last clearing `setCategories` ended clean. */
  ghost predicate CleanSinceSet(ops: seq<Op>) {
    ops != [] ==>
      var before := ops[..|ops| - 1];
      match ops[|ops| - 1]
      case Set(categories, clear) =>
        (categories.Some? ==> Clean(categories.value)) && (clear || CleanSinceSet(before))
      case _ => CleanSinceSet(before)
  }

  /** The categories that `clearCategories` took away since the last clearing `setCategories`. */
  function Forgotten(ops: seq<Op>): seq<Category> {
    if ops == [] then []
    else
      var before := ops[..|ops| - 1];
      match ops[|ops| - 1]
      case Set(_, clear) => if clear then [] else Forgotten(before)
      case Clear => Forgotten(before) + Run(before).categories
      case Query(_, _) => Forgotten(before)
  }

  /** The category list is what parsing the accumulated text from scratch gives. */
  ghost predicate TextAgrees(r: Registry) {
    ReadsAs(r.text, r.categories)
  }

  lemma SetKeepsText(r: Registry, forgotten: seq<Category>, categories: Option<string>, clear: bool)
    requires ReadsAs(r.text, forgotten + r.categories) || clear
    requires categories.Some? ==> Clean(categories.value)
    ensures var r' := SetCategories(r, categories, clear);
            ReadsAs(r'.text, (if clear then [] else forgotten) + r'.categories)
  {
    EmptyReads();
    var base := if clear then Registry([], map[], 0, "") else r;
    var kept := (if clear then [] else forgotten) + base.categories;
    assert ReadsAs(base.text, kept);
    if categories.Some? {
      var s := categories.value;
      assert ReadsAs(s, Parse(s));
      ExtendReads(base.text, kept, s, Parse(s));
      assert kept + Parse(s) == (if clear then [] else forgotten) + (base.categories + Parse(s));
    }
  }

  /** The text that `getCategories` returns reads as what was cleared away, followed by the current list. */
  lemma {:induction false} RunTextReads(ops: seq<Op>)
    requires CleanSinceSet(ops)
    ensures ReadsAs(Run(ops).text, Forgotten(ops) + Run(ops).categories)
  {
    if ops == [] {
      EmptyReads();
    } else {
      var before := ops[..|ops| - 1];
      match ops[|ops| - 1]
      case Set(categories, clear) =>
        if !clear {
          RunTextReads(before);
        }
        SetKeepsText(Run(before), Forgotten(before), categories, clear);
      case Clear =>
        RunTextReads(before);
        assert Forgotten(ops) + [] == Forgotten(before) + Run(before).categories;
      case Query(level, category) =>
        RunTextReads(before);
    }
  }

  /** Text and list agree after a run if and only if `clearCategories` has taken nothing away since then. */
  lemma {:induction false} RunTextAgreesExactly(ops: seq<Op>)
    requires CleanSinceSet(ops)
    ensures TextAgrees(Run(ops)) <==> Forgotten(ops) == []
  {
    RunTextReads(ops);
    if Forgotten(ops) == [] {
      assert Forgotten(ops) + Run(ops).categories == Run(ops).categories;
    } else {
      assert |Forgotten(ops) + Run(ops).categories| > |Run(ops).categories|;
    }
  }

  /** Setting a category and clearing the list parts the two. */
  lemma ClearingPartsThem()
    ensures !TextAgrees(Run([Set(Some("a:INFO"), true), Clear]))
  {
    var c := Category("a", Info);
    FieldReadsBack(c);
    assert PrintField(c) == "a:INFO";
    var one := [Set(Some("a:INFO"), true)];
    var ops := one + [Clear];
    assert ops == [Set(Some("a:INFO"), true), Clear];
    assert ops[..1] == one && one[..0] == [];
    assert Run(one) == SetCategories(INITIAL, Some("a:INFO"), true);
    assert Run(one).categories == [c];
    assert Forgotten(ops) == Forgotten(one) + [c];
    RunTextAgreesExactly(ops);
  }
}
