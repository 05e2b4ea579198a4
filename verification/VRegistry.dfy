/** The registry object that the logging macros ask, with its loops. */
module VRegistryObject {
  import opened Results
  import opened Levels
  import opened Glob
  import opened CategoryText
  import Filter = CategoryFilter

  lemma {:induction false} RaiseStep(lowest: int, list: seq<Category>, c: Category)
    ensures Filter.Raise(lowest, list + [c]) ==
            var before := Filter.Raise(lowest, list);
            if Priority(c.level) > before then Priority(c.level) else before
  {
    assert (list + [c])[..|list|] == list;
  }

  /** Reading on in state `st` ends as reading the whole text does. */
  ghost predicate Scanning(s: string, rest: string, st: Scan) {
    ParseScan(rest, st) == ParseScan(s, START)
  }

  /** The rounds that read a separator or a character of a name, and the end. */
  lemma ScanningRound(s: string, rest: string, st: Scan)
    requires Scanning(s, rest, st)
    ensures rest == "" ==> Parse(s) == Flush(st).list
    ensures rest != "" && rest[0] == ':' ==> Scanning(s, rest[1..], st.(isCat := false))
    ensures rest != "" && rest[0] == ',' ==> Scanning(s, rest[1..], Flush(st.(isCat := true)))
    ensures rest != "" && rest[0] != ':' && rest[0] != ',' && st.isCat ==>
              Scanning(s, rest[1..], st.(name := st.name + [rest[0]]))
  {
    if rest != "" {
      assert ParseScan(rest, st) == ParseScan(rest[Width(rest, st)..], Advance(rest, st));
    }
  }

  class VRegistry {
    var categories: seq<Category>
    var cache: map<string, int>
    var lowest: int
    var text: string

    ghost function View(): Filter.Registry
      reads this
    {
      Filter.Registry(categories, cache, lowest, text)
    }

    constructor ()
      ensures View() == Filter.INITIAL
    {
      categories, cache, lowest, text := [], map[], Filter.INT_MAX, "";
    }

    method ClearCategories()
      modifies this
      ensures View() == Filter.ClearCategories(old(View()))
    {
      categories := [];
      cache := map[];
      lowest := Filter.INT_MAX;
    }

    /** Puts one entry at the end of the list; every memoised answer is void then. */
    method Insert(name: string, level: Level)
      modifies this`categories, this`cache, this`lowest
      ensures categories == old(categories) + [Category(name, level)]
      ensures cache == map[]
      ensures lowest == if Priority(level) > old(lowest) then Priority(level) else old(lowest)
    {
      categories := categories + [Category(name, level)];
      cache := map[];
      var pri := Priority(level);
      if pri > lowest {
        lowest := pri;
      }
    }

    method SetCategories(given: Option<string>, clear: bool)
      requires given.Some? ==> CString(given.value)
      modifies this
      ensures View() == Filter.SetCategories(old(View()), given, clear)
    {
      if clear {
        lowest := 0;
        categories := [];
        cache := map[];
        text := "";
      }
      if given.None? {
        return;
      }
      var s := given.value;
      if text != "" {
        text := text + ",";
      }
      text := text + s;
      ParseAndInsert(s);
    }

    method CountFields(s: string) returns (fields: nat)
      ensures fields == |categories| + 1 + Commas(s)
    {
      fields := |categories| + 1;
      for k := 0 to |s|
        invariant fields == |categories| + 1 + Commas(s[..k])
      {
        assert s[..k + 1][..k] == s[..k];
        if s[k] == ',' {
          fields := fields + 1;
        }
      }
      assert s[..|s|] == s;
    }

    /** The round that looks for a level; it stays inside the text. */
    method ReadLevel(ghost s: string, rest: string, ghost st: Scan) returns (level: Level, next: string)
      requires rest != "" && rest[0] != ':' && rest[0] != ',' && !st.isCat && Scanning(s, rest, st)
      ensures |next| < |rest|
      ensures Scanning(s, next, st.(level := level))
    {
      level := FromPrefix(rest);
      assert ParseScan(rest, st) == ParseScan(rest[Width(rest, st)..], st.(level := level));
      if level == Unknown {
        next := rest[1..];
      } else {
        FromPrefixExactly(rest, level);
        next := rest[|ToString(level)|..];
      }
    }

    /** The list grows by what the text parses to, and never beyond the `fields` reserved for it. */
    method ParseAndInsert(s: string)
      requires CString(s)
      modifies this`categories, this`cache, this`lowest
      ensures categories == old(categories) + Parse(s)
      ensures cache == if Parse(s) == [] then old(cache) else map[]
      ensures lowest == Filter.Raise(old(lowest), Parse(s))
    {
      var fields := CountFields(s);
      var isCat, isLevel := true, false;
      var name, level := "", Unknown;
      ghost var list: seq<Category> := [];
      var rest := s;
      while rest != ""
        invariant isLevel == !isCat
        invariant Scanning(s, rest, Scan(isCat, name, level, list))
        invariant categories == old(categories) + list
        invariant cache == if list == [] then old(cache) else map[]
        invariant lowest == Filter.Raise(old(lowest), list)
        decreases |rest|
      {
        ScanningRound(s, rest, Scan(isCat, name, level, list));
        var c := rest[0];
        if isLevel && c != ':' && c != ',' {
          level, rest := ReadLevel(s, rest, Scan(isCat, name, level, list));
        } else {
          rest := rest[1..];
          if c == ':' {
            isLevel, isCat := true, false;
          } else if c == ',' {
            isLevel, isCat := false, true;
            if name != "" && level != Unknown {
              Insert(name, level);
              RaiseStep(old(lowest), list, Category(name, level));
              list := list + [Category(name, level)];
              name, level := "", Unknown;
            }
          } else {
            name := name + [c];
          }
        }
      }
      ScanningRound(s, rest, Scan(isCat, name, level, list));
      if name != "" && level != Unknown {
        Insert(name, level);
        RaiseStep(old(lowest), list, Category(name, level));
      }
      ParseLength(s);
      assert |categories| <= fields;
    }

    method PriorityAllowed(pri: int, category: string) returns (r: bool)
      modifies this`cache
      ensures (View(), r) == Filter.PriorityAllowed(old(View()), pri, category)
    {
      if category in cache {
        return pri <= cache[category];
      }
      if categories == [] {
        return false;
      }
      var i := |categories|;
      assert categories[..i] == categories;
      while i > 0
        invariant 0 <= i <= |categories|
        invariant cache == old(cache)
        invariant Filter.LastMatch(categories[..i], category) == Filter.LastMatch(categories, category)
      {
        var c := categories[i - 1];
        assert categories[..i][..i - 1] == categories[..i - 1];
        var matched := WildCardMatch(CStr(category), 0, CStr(c.name), 0);
        MatchesExactly(CStr(c.name), CStr(category));
        if matched {
          var p := Priority(c.level);
          cache := cache[category := p];
          return pri <= p;
        }
        i := i - 1;
      }
      cache := cache[category := -1];
      return false;
    }

    /** `Loggers::allowed`: the threshold is looked at first. */
    method Allowed(level: Level, category: string) returns (r: bool)
      modifies this`cache
      ensures (View(), r) == Filter.Allowed(old(View()), level, category)
    {
      var pri := Priority(level);
      if pri > lowest {
        return false;
      }
      r := PriorityAllowed(pri, category);
    }
  }
}
