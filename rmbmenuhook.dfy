/** The right-mouse-button (RMB) menu hook: a registry of menu classes by
    name, each with a priority, and the rule that picks which one builds
    when the RMB menu opens. */
module RmbMenuHook {
  import opened Base

  /** What is stored for a name: the menu class and its priority. */
  datatype Entry<C> = Entry(cls: C, priority: int)

  /** One dict item. The registry keeps its items in insertion order. */
  datatype Registration<C> = Registration(name: string, entry: Entry<C>)

  predicate NamesDistinct<C>(regs: seq<Registration<C>>) {
    forall i, j :: 0 <= i < j < |regs| ==> regs[i].name != regs[j].name
  }

  /** The names that have an item. */
  function Names<C>(regs: seq<Registration<C>>): set<string> {
    set i | 0 <= i < |regs| :: regs[i].name
  }

  /** `REGISTERED_MENUS.get(name)` */
  function Lookup<C>(regs: seq<Registration<C>>, name: string): (r: Option<Entry<C>>)
    ensures r.None? <==> name !in Names(regs)
    ensures r.Some? ==> Registration(name, r.value) in regs
  {
    if regs == [] then None
    else if regs[0].name == name then Some(regs[0].entry)
    else
      assert Names(regs) == {regs[0].name} + Names(regs[1..]) by {
        assert forall i :: 0 < i < |regs| ==> regs[i].name == regs[1..][i - 1].name;
      }
      Lookup(regs[1..], name)
  }

  /** `REGISTERED_MENUS[name] = entry`: an existing item is overwritten in
      place, a new one goes at the end. */
  function Put<C>(regs: seq<Registration<C>>, name: string, entry: Entry<C>): (r: seq<Registration<C>>)
    requires NamesDistinct(regs)
    ensures NamesDistinct(r)
    ensures Names(r) == Names(regs) + {name}
    ensures Lookup(r, name) == Some(entry)
    ensures forall n :: n != name ==> Lookup(r, n) == Lookup(regs, n)
  {
    if regs == [] then
      var r := [Registration(name, entry)];
      NamesCons(r);
      r
    else
      NamesCons(regs);
      if regs[0].name == name then
        var r := [Registration(name, entry)] + regs[1..];
        NamesCons(r);
        r
      else
        var r := [regs[0]] + Put(regs[1..], name, entry);
        NamesCons(r);
        r
  }

  /** `del REGISTERED_MENUS[name]` when present; nothing otherwise. */
  function Delete<C>(regs: seq<Registration<C>>, name: string): (r: seq<Registration<C>>)
    requires NamesDistinct(regs)
    ensures NamesDistinct(r)
    ensures Names(r) == Names(regs) - {name}
    ensures Lookup(r, name) == None
    ensures forall n :: n != name ==> Lookup(r, n) == Lookup(regs, n)
    ensures name !in Names(regs) ==> r == regs
  {
    if regs == [] then []
    else
      NamesCons(regs);
      if regs[0].name == name then regs[1..]
      else
        var r := [regs[0]] + Delete(regs[1..], name);
        NamesCons(r);
        r
  }

  /** The names of a non-empty registry: its head's and its tail's, the
      head's name occurring in the tail only if names repeat. */
  lemma NamesCons<C>(regs: seq<Registration<C>>)
    requires regs != []
    ensures Names(regs) == {regs[0].name} + Names(regs[1..])
    ensures NamesDistinct(regs) <==> NamesDistinct(regs[1..]) && regs[0].name !in Names(regs[1..])
  {
    assert forall i :: 0 < i < |regs| ==> regs[i].name == regs[1..][i - 1].name;
    if NamesDistinct(regs[1..]) && regs[0].name !in Names(regs[1..]) {
      forall i, j | 0 <= i < j < |regs| ensures regs[i].name != regs[j].name {
        if i > 0 {
          assert regs[i] == regs[1..][i - 1] && regs[j] == regs[1..][j - 1];
        } else {
          assert regs[j].name in Names(regs[1..]);
        }
      }
    }
  }

  // ---------------------------------------------------------------------
  // Ordering by priority

  function Values<C>(regs: seq<Registration<C>>): (r: seq<Entry<C>>)
    ensures |r| == |regs|
    ensures forall i :: 0 <= i < |regs| ==> r[i] == regs[i].entry
  {
    seq(|regs|, i requires 0 <= i < |regs| => regs[i].entry)
  }

  function Classes<C>(entries: seq<Entry<C>>): (r: seq<C>)
    ensures |r| == |entries|
    ensures forall i :: 0 <= i < |entries| ==> r[i] == entries[i].cls
  {
    seq(|entries|, i requires 0 <= i < |entries| => entries[i].cls)
  }

  lemma ClassesAppend<C>(a: seq<Entry<C>>, b: seq<Entry<C>>)
    ensures Classes(a + b) == Classes(a) + Classes(b)
  {
  }

  predicate Ascending<C>(s: seq<Entry<C>>) {
    forall i, j :: 0 <= i < j < |s| ==> s[i].priority <= s[j].priority
  }

  predicate NonIncreasing<C>(s: seq<Entry<C>>) {
    forall i, j :: 0 <= i < j < |s| ==> s[i].priority >= s[j].priority
  }

  /** Places `x` before the first entry of strictly higher priority, so
      that among equal priorities earlier insertions stay first. */
  function Insert<C>(sorted: seq<Entry<C>>, x: Entry<C>): seq<Entry<C>> {
    if sorted == [] then [x]
    else if x.priority < sorted[0].priority then [x] + sorted
    else [sorted[0]] + Insert(sorted[1..], x)
  }

  lemma {:induction false} InsertSorted<C>(sorted: seq<Entry<C>>, x: Entry<C>)
    requires Ascending(sorted)
    ensures Ascending(Insert(sorted, x))
    decreases |sorted|
  {
    if sorted == [] {
    } else if x.priority < sorted[0].priority {
      AscendingCons(x, sorted);
    } else {
      var tail := sorted[1..];
      InsertSorted(tail, x);
      InsertAtLeast(tail, x, sorted[0].priority);
      AscendingCons(sorted[0], Insert(tail, x));
    }
  }

  /** An ascending sequence stays ascending behind a head no greater than
      any of its elements. */
  lemma AscendingCons<C>(h: Entry<C>, s: seq<Entry<C>>)
    requires Ascending(s)
    requires forall i :: 0 <= i < |s| ==> h.priority <= s[i].priority
    ensures Ascending([h] + s)
  {
    var r := [h] + s;
    forall i, j | 0 <= i < j < |r| ensures r[i].priority <= r[j].priority {
      assert r[j] == s[j - 1];
      if i > 0 {
        assert r[i] == s[i - 1];
      }
    }
  }

  /** Inserting keeps every element of the result and adds exactly `x`. */
  lemma {:induction false} InsertPermutes<C>(sorted: seq<Entry<C>>, x: Entry<C>)
    ensures multiset(Insert(sorted, x)) == multiset(sorted) + multiset{x}
    decreases |sorted|
  {
    if sorted != [] && x.priority >= sorted[0].priority {
      InsertPermutes(sorted[1..], x);
      assert sorted == [sorted[0]] + sorted[1..];
    }
  }

  /** A lower bound on the priorities of `sorted` and of `x` bounds the
      priorities after the insertion. */
  lemma {:induction false} InsertAtLeast<C>(sorted: seq<Entry<C>>, x: Entry<C>, lo: int)
    requires forall i :: 0 <= i < |sorted| ==> lo <= sorted[i].priority
    requires lo <= x.priority
    ensures forall i :: 0 <= i < |Insert(sorted, x)| ==> lo <= Insert(sorted, x)[i].priority
    decreases |sorted|
  {
    if sorted != [] && x.priority >= sorted[0].priority {
      InsertAtLeast(sorted[1..], x, lo);
      var rest := Insert(sorted[1..], x);
      assert Insert(sorted, x) == [sorted[0]] + rest;
      forall i | 0 <= i < |Insert(sorted, x)| ensures lo <= Insert(sorted, x)[i].priority {
        if i > 0 {
          assert Insert(sorted, x)[i] == rest[i - 1];
        }
      }
    }
  }

  /** `list.sort(key=lambda e: e[1])`: an ascending sort by priority. */
  function SortByPriority<C>(s: seq<Entry<C>>): (r: seq<Entry<C>>)
    ensures Ascending(r)
    ensures multiset(r) == multiset(s)
    decreases |s|
  {
    if s == [] then []
    else
      assert s == s[..|s| - 1] + [s[|s| - 1]];
      InsertSorted(SortByPriority(s[..|s| - 1]), s[|s| - 1]);
      InsertPermutes(SortByPriority(s[..|s| - 1]), s[|s| - 1]);
      Insert(SortByPriority(s[..|s| - 1]), s[|s| - 1])
  }

  function Reverse<T>(s: seq<T>): (r: seq<T>)
    ensures |r| == |s|
    ensures forall i :: 0 <= i < |s| ==> r[i] == s[|s| - 1 - i]
  {
    seq(|s|, i requires 0 <= i < |s| => s[|s| - 1 - i])
  }

  lemma {:induction false} ReverseMultiset<T>(s: seq<T>)
    ensures multiset(Reverse(s)) == multiset(s)
    decreases |s|
  {
    if s != [] {
      var t := s[1..];
      ReverseMultiset(t);
      assert Reverse(s) == Reverse(t) + [s[0]];
      assert s == [s[0]] + t;
    }
  }

  /** Inserting an entry adds its class to the sorted classes. */
  lemma {:induction false} InsertClasses<C>(sorted: seq<Entry<C>>, x: Entry<C>)
    ensures multiset(Classes(Insert(sorted, x))) == multiset(Classes(sorted)) + multiset{x.cls}
    decreases |sorted|
  {
    if sorted != [] {
      if x.priority < sorted[0].priority {
        ClassesAppend([x], sorted);
      } else {
        InsertClasses(sorted[1..], x);
        ClassesAppend([sorted[0]], Insert(sorted[1..], x));
        ClassesAppend([sorted[0]], sorted[1..]);
        assert sorted == [sorted[0]] + sorted[1..];
      }
    }
  }

  /** Sorting by priority reorders the classes and nothing more. */
  lemma {:induction false} SortClasses<C>(s: seq<Entry<C>>)
    ensures multiset(Classes(SortByPriority(s))) == multiset(Classes(s))
    decreases |s|
  {
    if s != [] {
      var front, last := s[..|s| - 1], s[|s| - 1];
      var sorted := SortByPriority(front);
      assert SortByPriority(s) == Insert(sorted, last);
      assert Classes(s) == Classes(front) + [last.cls] by {
        assert s == front + [last];
        ClassesAppend(front, [last]);
      }
      SortClasses(front);
      InsertClasses(sorted, last);
    }
  }

  /** The registered entries, highest priority first: sorted ascending and
      then reversed, as the source does. */
  function PrioritizedEntries<C>(regs: seq<Registration<C>>): (r: seq<Entry<C>>)
    ensures multiset(r) == multiset(Values(regs))
    ensures NonIncreasing(r)
  {
    var sorted := SortByPriority(Values(regs));
    ReverseMultiset(sorted);
    Reverse(sorted)
  }

  /** The mutable registry, `REGISTERED_MENUS`. */
  class Registry<C(==)> {
    var menus: seq<Registration<C>>

    ghost predicate Valid()
      reads this
    {
      NamesDistinct(menus)
    }

    constructor ()
      ensures Valid() && menus == []
    {
      menus := [];
    }

    /** After registering, the name maps to exactly (cls, priority); other
        names are untouched. */
    method RegisterMenu(name: string, cls: C, priority: int)
      requires Valid()
      modifies this
      ensures Valid()
      ensures menus == Put(old(menus), name, Entry(cls, priority))
      ensures GetRegisteredMenu(name) == Some(Entry(cls, priority))
      ensures forall n :: n != name ==> GetRegisteredMenu(n) == old(GetRegisteredMenu(n))
    {
      menus := Put(menus, name, Entry(cls, priority));
    }

    /** Removes the name's entry, if any; other names are untouched. */
    method UnregisterMenu(name: string)
      requires Valid()
      modifies this
      ensures Valid()
      ensures menus == Delete(old(menus), name)
      ensures GetRegisteredMenu(name) == None
      ensures forall n :: n != name ==> GetRegisteredMenu(n) == old(GetRegisteredMenu(n))
    {
      menus := Delete(menus, name);
    }

    /** The stored (cls, priority), or None. */
    function GetRegisteredMenu(name: string): (r: Option<Entry<C>>)
      reads this
      ensures r.None? <==> forall i :: 0 <= i < |menus| ==> menus[i].name != name
      ensures r.Some? ==> Registration(name, r.value) in menus
    {
      Lookup(menus, name)
    }

    /** The registered classes, higher priorities first: each class sits
        where its entry sits in the priority order, and every registered
        class appears as often as it is registered. */
    function GetPrioritizedMenuClasses(): (r: seq<C>)
      reads this
      ensures r == Classes(PrioritizedEntries(menus))
      ensures multiset(r) == multiset(Classes(Values(menus)))
    {
      var sorted := SortByPriority(Values(menus));
      SortClasses(Values(menus));
      assert Classes(Reverse(sorted)) == Reverse(Classes(sorted));
      ReverseMultiset(Classes(sorted));
      Classes(PrioritizedEntries(menus))
    }

    /** Builds the first class, in priority order, whose `shouldBuild`
        accepts; `built.Some?` is the source's True. */
    method BuildMenu(shouldBuild: C -> bool) returns (built: Option<C>)
      ensures var classes := GetPrioritizedMenuClasses();
        && (built.Some? <==> exists i :: 0 <= i < |classes| && shouldBuild(classes[i]))
        && (built.Some? ==> exists i :: 0 <= i < |classes| && classes[i] == built.value && shouldBuild(classes[i])
                              && forall j :: 0 <= j < i ==> !shouldBuild(classes[j]))
    {
      var classes := GetPrioritizedMenuClasses();
      for i := 0 to |classes|
        invariant forall j :: 0 <= j < i ==> !shouldBuild(classes[j])
      {
        if shouldBuild(classes[i]) {
          return Some(classes[i]);
        }
      }
      return None;
    }
  }
}
