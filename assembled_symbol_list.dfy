/**
 * AssembledSymbolList: a DNA symbol list patched together from components. Each component
 * is the symbol list placed at one location of the assembly; positions no component covers
 * read as 'n'. The components are kept in a map ordered by Location.naturalOrder, mirrored
 * in a sorted list that binary searches run over, and the last location found is cached.
 *
 * A component location is modelled as a range min..max and a component's symbols as the
 * string of their tokens. The binary searches assume, as the source says, that the
 * component locations are sorted and do not overlap (Separated below).
 */
module Assembled {
  import opened Wrappers

  /** A component location: the range min..max of the assembly it covers. */
  datatype Span = Span(min: int, max: int)
  {
    predicate Contains(p: int)
    {
      min <= p <= max
    }
  }

  /** Location.naturalOrder on ranges, strictly: by minimum, then by maximum. */
  predicate Before(a: Span, b: Span)
  {
    a.min < b.min || (a.min == b.min && a.max < b.max)
  }

  predicate StrictlySorted(s: seq<Span>)
  {
    forall i, j :: 0 <= i < j < |s| ==> Before(s[i], s[j])
  }

  /** The least key of a non-empty key set in natural order. */
  ghost function MinKey(ks: set<Span>): (m: Span)
    requires ks != {}
    ensures m in ks && forall y :: y in ks && y != m ==> Before(m, y)
  {
    var x :| x in ks;
    var rest := ks - {x};
    assert forall y :: y in ks ==> y == x || y in rest;
    if rest == {} then x
    else
      var m := MinKey(rest);
      assert m != x;
      if Before(x, m) then x
      else
        assert m == Span(m.min, m.max) && x == Span(x.min, x.max);
        assert Before(m, x);
        m
  }

  /** The keys of the component map in natural order: what the TreeMap's keySet iterates. */
  ghost function SortedKeys(ks: set<Span>): (r: seq<Span>)
    decreases |ks|
  {
    if ks == {} then [] else [MinKey(ks)] + SortedKeys(ks - {MinKey(ks)})
  }

  /** The sorted keys are the keys, each once, in strictly increasing order. */
  lemma {:induction false} SortedKeysOrder(ks: set<Span>)
    ensures |SortedKeys(ks)| == |ks|
    ensures forall x :: x in SortedKeys(ks) <==> x in ks
    ensures StrictlySorted(SortedKeys(ks))
    decreases |ks|
  {
    if ks != {} {
      var m := MinKey(ks);
      var rest := SortedKeys(ks - {m});
      SortedKeysOrder(ks - {m});
      assert SortedKeys(ks) == [m] + rest;
      assert |ks - {m}| == |ks| - 1;
      ConsMembers(ks, m, rest);
      ConsSorted(ks, m, rest);
    }
  }

  lemma ConsMembers(ks: set<Span>, m: Span, rest: seq<Span>)
    requires m in ks && forall x :: x in rest <==> x in ks - {m}
    ensures forall x :: x in [m] + rest <==> x in ks
  {
    forall x ensures x in [m] + rest <==> x in ks {
      assert x in [m] + rest <==> x == m || x in rest;
    }
  }

  lemma ConsSorted(ks: set<Span>, m: Span, rest: seq<Span>)
    requires forall y :: y in ks && y != m ==> Before(m, y)
    requires StrictlySorted(rest) && forall x :: x in rest ==> x in ks - {m}
    ensures StrictlySorted([m] + rest)
  {
    var r := [m] + rest;
    forall i, j | 0 <= i < j < |r| ensures Before(r[i], r[j]) {
      assert r[j] == rest[j - 1];
      assert rest[j - 1] in rest;
      if i > 0 {
        assert r[i] == rest[i - 1];
      }
    }
  }

  /** A key set has one least key. */
  lemma MinKeyUnique(ks: set<Span>, x: Span)
    requires x in ks && forall y :: y in ks && y != x ==> Before(x, y)
    ensures x == MinKey(ks)
  {
  }

  lemma KeyStep(ks: set<Span>, rest: set<Span>, r: seq<Span>, x: Span)
    requires rest != {} && r + SortedKeys(rest) == SortedKeys(ks)
    requires x in rest && forall y :: y in rest && y != x ==> Before(x, y)
    ensures (r + [x]) + SortedKeys(rest - {x}) == SortedKeys(ks)
  {
    MinKeyUnique(rest, x);
    var tail := SortedKeys(rest - {x});
    assert SortedKeys(rest) == [x] + tail;
    assert r + ([x] + tail) == (r + [x]) + tail;
  }

  /**
   * componentList.addAll(components.keySet()): the keys appended in the order the sorted
   * map iterates them, least first.
   */
  method KeyList(ks: set<Span>) returns (r: seq<Span>)
    ensures r == SortedKeys(ks)
  {
    r := [];
    var rest := ks;
    while rest != {}
      invariant r + SortedKeys(rest) == SortedKeys(ks)
      decreases |rest|
    {
      assert MinKey(rest) in rest;
      var x :| x in rest && forall y :: y in rest && y != x ==> Before(x, y);
      KeyStep(ks, rest, r, x);
      r := r + [x];
      rest := rest - {x};
    }
  }

  /** Proper ranges, each ending before the next begins: the sorted, non-overlapping components the searches expect. */
  predicate Separated(s: seq<Span>)
  {
    (forall i :: 0 <= i < |s| ==> s[i].min <= s[i].max) &&
    (forall i, j :: 0 <= i < j < |s| ==> s[i].max < s[j].min)
  }

  /** The first location of the list that contains p. */
  function Containing(s: seq<Span>, p: int): (r: Option<Span>)
    ensures r.Some? ==> r.value in s && r.value.Contains(p)
    ensures r.None? <==> forall i :: 0 <= i < |s| ==> !s[i].Contains(p)
  {
    if s == [] then None
    else if s[0].Contains(p) then Some(s[0])
    else
      var r := Containing(s[1..], p);
      assert forall i :: 1 <= i < |s| ==> s[i] == s[1..][i - 1];
      r
  }

  /** The first location of the list that starts after p. */
  function FirstAfter(s: seq<Span>, p: int): (r: Option<Span>)
    ensures r.None? <==> forall i :: 0 <= i < |s| ==> s[i].min <= p
    ensures r.Some? ==> p < r.value.min
    ensures r.Some? ==> exists k :: 0 <= k < |s| && s[k] == r.value && p < s[k].min &&
                                  forall i :: 0 <= i < k ==> s[i].min <= p
  {
    if s == [] then None
    else if p < s[0].min then Some(s[0])
    else
      var r := FirstAfter(s[1..], p);
      assert forall i :: 1 <= i < |s| ==> s[i] == s[1..][i - 1];
      if r.Some? then
        var k :| 0 <= k < |s[1..]| && s[1..][k] == r.value && p < s[1..][k].min &&
          forall i :: 0 <= i < k ==> s[1..][i].min <= p;
        assert s[k + 1] == r.value;
        r
      else r
  }

  /** In a separated list, the location containing p is the only one. */
  lemma ContainingIs(s: seq<Span>, k: nat, p: int)
    requires Separated(s) && k < |s| && s[k].Contains(p)
    ensures Containing(s, p) == Some(s[k])
  {
    var r := Containing(s, p);
    var j :| 0 <= j < |s| && s[j] == r.value;
  }

  /** Between p (in no location) and the next location to start, no location holds a position. */
  lemma NoneBetween(s: seq<Span>, p: int, q: int)
    requires Separated(s) && Containing(s, p).None? && p <= q
    requires FirstAfter(s, p).Some? ==> q < FirstAfter(s, p).value.min
    ensures Containing(s, q).None?
  {
    forall i | 0 <= i < |s| ensures !s[i].Contains(q) {
      assert !s[i].Contains(p);
      if p < s[i].min {
        var k :| 0 <= k < |s| && s[k] == FirstAfter(s, p).value && p < s[k].min &&
          forall i :: 0 <= i < k ==> s[i].min <= p;
        if k < i {
          assert s[k].max < s[i].min;
        }
      }
    }
  }

  /** A binary search step that moves `last` below a location starting after p keeps every later location after p. */
  lemma NarrowBelow(s: seq<Span>, check: int, last: int, p: int)
    requires Separated(s) && 0 <= check <= last < |s| && p < s[check].min
    requires forall i :: last < i < |s| ==> p < s[i].min
    ensures forall i :: check - 1 < i < |s| ==> p < s[i].min
  {
    forall i | check < i < |s| ensures p < s[i].min {
      assert s[check].max < s[i].min;
    }
  }

  /** A binary search step that moves `first` past a location ending before p keeps every earlier location before p. */
  lemma NarrowAbove(s: seq<Span>, first: int, check: int, p: int)
    requires Separated(s) && 0 <= first <= check < |s| && s[check].min <= p && !s[check].Contains(p)
    requires forall i :: 0 <= i < first ==> s[i].max < p
    ensures forall i :: 0 <= i < check + 1 ==> s[i].max < p
  {
    forall i | 0 <= i < check ensures s[i].max < p {
      assert s[i].max < s[check].min;
    }
  }

  /** The list before the binary search's `first` lies before p, and after its `last` after p: p is in no location and the next one starts at `first`. */
  lemma SearchGap(s: seq<Span>, first: nat, p: int)
    requires Separated(s) && first <= |s|
    requires forall i :: 0 <= i < first ==> s[i].max < p
    requires forall i :: first <= i < |s| ==> p < s[i].min
    ensures Containing(s, p).None?
    ensures FirstAfter(s, p) == if first < |s| then Some(s[first]) else None
  {
    if first < |s| {
      assert p < s[first].min;
      var r := FirstAfter(s, p);
      var k :| 0 <= k < |s| && s[k] == r.value && p < s[k].min &&
        forall i :: 0 <= i < k ==> s[i].min <= p;
      assert s[k].min <= s[k].max;
      assert p < s[k].max && p < s[first].min;
      assert k == first;
    }
  }

  /** Every component's symbols are as many as its location covers. */
  predicate WellSized(components: map<Span, string>)
  {
    forall s :: s in components ==> |components[s]| == s.max - s.min + 1
  }

  /** The list holds keys of the component map only. */
  predicate Keys(components: map<Span, string>, list: seq<Span>)
  {
    forall s :: s in list ==> s in components
  }

  /** The symbol at p: the symbol there of the first component in the list that covers p, else 'n'. */
  function CharAt(components: map<Span, string>, list: seq<Span>, p: int): char
    requires WellSized(components) && Keys(components, list)
  {
    match Containing(list, p)
    case Some(s) => components[s][p - s.min]
    case None => 'n'
  }

  /** Within one component, the symbols are that component's own. */
  lemma InComponent(components: map<Span, string>, list: seq<Span>, s: Span, q: int)
    requires WellSized(components) && Keys(components, list) && Separated(list)
    requires s in list && s.Contains(q)
    ensures CharAt(components, list, q) == components[s][q - s.min]
  {
    ContainingMember(list, s, q);
  }

  /** In a separated list, a location holding q is the one Containing finds. */
  lemma ContainingMember(list: seq<Span>, s: Span, q: int)
    requires Separated(list) && s in list && s.Contains(q)
    ensures Containing(list, q) == Some(s)
  {
    var k :| 0 <= k < |list| && list[k] == s;
    ContainingIs(list, k, q);
  }

  /** The symbols lo..hi-1 (0-based) of one component read, symbol by symbol, as the assembly does from the position of symbol lo on. */
  lemma SliceReads(components: map<Span, string>, list: seq<Span>, s: Span, lo: int, hi: int, from: int)
    requires WellSized(components) && Keys(components, list) && Separated(list)
    requires s in list && 0 <= lo <= hi <= s.max - s.min + 1 && from == s.min + lo
    ensures hi <= |components[s]| && ReadsFrom(components, list, components[s][lo .. hi], from)
  {
    var c := components[s];
    assert |c| == s.max - s.min + 1;
    var t := c[lo .. hi];
    forall i | 0 <= i < |t| ensures t[i] == CharAt(components, list, from + i) {
      assert t[i] == c[lo + i];
      InComponent(components, list, s, from + i);
    }
  }

  /** Every position from p up to the next location to start reads as 'n'. */
  lemma GapReadsN(components: map<Span, string>, list: seq<Span>, p: int, q: int)
    requires WellSized(components) && Keys(components, list) && Separated(list)
    requires Containing(list, p).None? && p <= q
    requires FirstAfter(list, p).Some? ==> q < FirstAfter(list, p).value.min
    ensures CharAt(components, list, q) == 'n'
  {
    NoneBetween(list, p, q);
  }

  /** The string s reads, symbol by symbol, as the assembly does from position `from` on. */
  predicate ReadsFrom(components: map<Span, string>, list: seq<Span>, s: string, from: int)
  {
    WellSized(components) && Keys(components, list) &&
    forall i :: 0 <= i < |s| ==> s[i] == CharAt(components, list, from + i)
  }

  lemma ReadsConcat(components: map<Span, string>, list: seq<Span>, a: string, b: string, from: int, mid: int)
    requires mid == from + |a|
    requires ReadsFrom(components, list, a, from) && ReadsFrom(components, list, b, mid)
    ensures ReadsFrom(components, list, a + b, from)
  {
    forall i | 0 <= i < |a + b| ensures (a + b)[i] == CharAt(components, list, from + i) {
      if i >= |a| {
        assert (a + b)[i] == b[i - |a|];
        assert from + |a| + (i - |a|) == from + i;
      }
    }
  }

  /** A run of n 'n' symbols. */
  function NRun(n: int): (r: string)
    ensures |r| == if n < 0 then 0 else n
    ensures forall i :: 0 <= i < |r| ==> r[i] == 'n'
  {
    if n <= 0 then "" else NRun(n - 1) + "n"
  }

  /** The padding loop of subStr: count 'n' symbols appended one at a time. */
  method AppendN(sb: string, count: int) returns (r: string)
    ensures r == sb + NRun(count)
  {
    r := sb;
    var i := 0;
    while i < count
      invariant i <= count || i == 0
      invariant r == sb + NRun(i)
      decreases count - i
    {
      assert NRun(i + 1) == NRun(i) + "n";
      r := r + "n";
      i := i + 1;
    }
  }

  /** A run of 'n' from a position in no component, stopping short of the next component, reads as the assembly. */
  lemma GapReadsRun(components: map<Span, string>, list: seq<Span>, p: int, run: string)
    requires WellSized(components) && Keys(components, list) && Separated(list)
    requires Containing(list, p).None? && forall i :: 0 <= i < |run| ==> run[i] == 'n'
    requires FirstAfter(list, p).Some? ==> p + |run| <= FirstAfter(list, p).value.min
    ensures ReadsFrom(components, list, run, p)
  {
    forall i | 0 <= i < |run| ensures run[i] == CharAt(components, list, p + i) {
      GapReadsN(components, list, p, p + i);
    }
  }

  /** The sorted keys of a map are keys of it. */
  lemma SortedKeysAreKeys(components: map<Span, string>)
    ensures forall s :: s in components <==> s in SortedKeys(components.Keys)
  {
    SortedKeysOrder(components.Keys);
  }

  /** What a component is: the symbols of another list, or the assembly itself (refused). */
  datatype ComponentSource = Symbols(text: string) | ThisAssembly

  datatype AssemblyError =
    | CircularReference   // NestedError: a component that is the assembly itself
    | OutOfBounds         // IndexOutOfBoundsException: range outside 1..length()
    | NoComponents        // IndexOutOfBoundsException: length() of an empty auto-length assembly
    | NullComponent       // NullPointerException: the cached location is no longer a component
    | ComponentIndex      // IndexOutOfBoundsException: a position outside the component's symbols

  /** What subList hands back: a stretch of one component (1-based, inclusive), or a view of the assembly. */
  datatype SubList = ComponentSlice(location: Span, start: int, end: int) | View(start: int, end: int)

  class AssembledSymbolList {
    var autoLength: bool
    var length: int
    var components: map<Span, string>
    var componentList: seq<Span>
    /** The last location found; None stands for Location.empty. */
    var lastLocation: Option<Span>

    /** componentList is the component map's keys in natural order. */
    ghost predicate Valid()
      reads this
    {
      componentList == SortedKeys(components.Keys) &&
      (forall s :: s in components <==> s in componentList) &&
      (lastLocation.Some? ==> lastLocation.value in components)
    }

    constructor()
      ensures autoLength && length == 0 && components == map[] && componentList == [] && lastLocation == None
      ensures Valid()
    {
      autoLength := true;
      length := 0;
      components := map[];
      componentList := [];
      lastLocation := None;
    }

    /** setLength: a fixed length replaces the one taken from the last component. */
    method SetLength(len: int)
      modifies this
      ensures !autoLength && length == len
      ensures components == old(components) && componentList == old(componentList) && lastLocation == old(lastLocation)
      ensures Length() == Ok(len)
      ensures old(Valid()) ==> Valid()
    {
      autoLength := false;
      length := len;
    }

    /** putComponent: the symbols at l are added, or replace those already there; the list is rebuilt. */
    method PutComponent(l: Span, src: ComponentSource) returns (r: Result<(), AssemblyError>)
      modifies this
      ensures src.ThisAssembly? ==> r == Err(CircularReference) && components == old(components)
      ensures src.Symbols? ==> r == Ok(()) && components == old(components)[l := src.text]
      ensures src.Symbols? ==> ComponentSymbols(l) == Some(src.text)
      ensures forall k :: k != l ==> ComponentSymbols(k) == old(ComponentSymbols(k))
      ensures src.Symbols? ==> componentList == SortedKeys(components.Keys)
      ensures src.ThisAssembly? ==> componentList == old(componentList)
      ensures lastLocation == old(lastLocation) && autoLength == old(autoLength) && length == old(length)
      ensures old(Valid()) ==> Valid()
    {
      if src.ThisAssembly? {
        return Err(CircularReference);
      }
      components := components[l := src.text];
      componentList := KeyList(components.Keys);
      SortedKeysAreKeys(components);
      r := Ok(());
    }

    /** removeComponent, with the cached location cleared so that it cannot outlive its component. */
    method RemoveComponent(loc: Span)
      modifies this
      ensures components == old(components) - {loc} && ComponentSymbols(loc) == None
      ensures forall k :: k != loc ==> ComponentSymbols(k) == old(ComponentSymbols(k))
      ensures componentList == SortedKeys(components.Keys)
      ensures lastLocation == None && autoLength == old(autoLength) && length == old(length)
      ensures Valid()
    {
      components := components - {loc};
      componentList := KeyList(components.Keys);
      SortedKeysAreKeys(components);
      lastLocation := None;
    }

    /** removeComponent as written: the cached location is kept, even when it is the one removed. */
    method RemoveComponentAsWritten(loc: Span)
      modifies this
      ensures components == old(components) - {loc} && ComponentSymbols(loc) == None
      ensures componentList == SortedKeys(components.Keys)
      ensures lastLocation == old(lastLocation) && autoLength == old(autoLength) && length == old(length)
      ensures old(lastLocation) != Some(loc) && old(Valid()) ==> Valid()
    {
      components := components - {loc};
      componentList := KeyList(components.Keys);
      SortedKeysAreKeys(components);
    }

    /** getComponentSymbols: the symbols at a component location, None (null) at any other. */
    function ComponentSymbols(l: Span): (r: Option<string>)
      reads this
      ensures Valid() ==> (r.Some? <==> l in componentList)
    {
      if l in components then Some(components[l]) else None
    }

    /** getComponentLocationSet: the component locations, which the list holds in order. */
    function ComponentLocationSet(): (r: set<Span>)
      reads this
      ensures Valid() ==> forall s :: s in r <==> s in componentList
    {
      components.Keys
    }

    /**
     * length(): the fixed length, or the end of the last component; an empty auto-length
     * assembly has none. With separated components that is the furthest end of any.
     */
    function Length(): (r: Result<int, AssemblyError>)
      reads this`autoLength, this`length, this`componentList
      ensures r.Err? <==> autoLength && componentList == []
      ensures !autoLength ==> r == Ok(length)
      ensures autoLength && r.Ok? ==> exists s :: s in componentList && s.max == r.value
      ensures autoLength && r.Ok? && Separated(componentList) ==>
        forall s :: s in componentList ==> s.max <= r.value
    {
      if autoLength then
        if componentList == [] then Err(NoComponents)
        else
          var last := componentList[|componentList| - 1];
          assert last in componentList;
          Ok(last.max)
      else Ok(length)
    }

    /** locationOfPoint: the cached location if it holds p, else a binary search of the list; a hit is cached. */
    method LocationOfPoint(p: int) returns (r: Option<Span>)
      modifies this
      ensures components == old(components) && componentList == old(componentList)
      ensures autoLength == old(autoLength) && length == old(length)
      ensures r.Some? ==> r.value.Contains(p)
      ensures lastLocation == if r.Some? then r else old(lastLocation)
      ensures old(lastLocation).Some? && old(lastLocation).value.Contains(p) ==> r == old(lastLocation)
      ensures !(old(lastLocation).Some? && old(lastLocation).value.Contains(p)) ==>
        (r.Some? ==> r.value in componentList) &&
        (Separated(componentList) ==> r == Containing(componentList, p))
      ensures old(Valid()) ==> Valid()
      ensures Valid() && Separated(componentList) ==> r == Containing(componentList, p)
    {
      if lastLocation.Some? && lastLocation.value.Contains(p) {
        r := lastLocation;
        if Valid() && Separated(componentList) {
          ContainingMember(componentList, r.value, p);
        }
        return;
      }
      var first := 0;
      var last := |componentList| - 1;
      while first <= last
        invariant unchanged(this)
        invariant 0 <= first <= last + 1 <= |componentList|
        invariant Separated(componentList) ==> forall i :: 0 <= i < first ==> componentList[i].max < p
        invariant Separated(componentList) ==> forall i :: last < i < |componentList| ==> p < componentList[i].min
        decreases last - first
      {
        var check := (first + last) / 2;
        var checkL := componentList[check];
        if checkL.Contains(p) {
          lastLocation := Some(checkL);
          if Separated(componentList) {
            ContainingIs(componentList, check, p);
          }
          return Some(checkL);
        }
        if p < checkL.min {
          if Separated(componentList) {
            NarrowBelow(componentList, check, last, p);
          }
          last := check - 1;
        } else {
          if Separated(componentList) {
            NarrowAbove(componentList, first, check, p);
          }
          first := check + 1;
        }
      }
      if Separated(componentList) {
        SearchGap(componentList, first, p);
      }
      r := None;
    }

    /**
     * locationUpstreamOfPoint: the location holding p, else the first to start after p, by the
     * same binary search; None when there is none (the exceptions the source catches).
     */
    method LocationUpstreamOfPoint(p: int) returns (r: Option<Span>)
      ensures r.Some? ==> r.value in componentList
      ensures Separated(componentList) ==>
        r == if Containing(componentList, p).Some? then Containing(componentList, p) else FirstAfter(componentList, p)
    {
      var first := 0;
      var last := |componentList| - 1;
      var check := 0;
      var checkL: Option<Span> := None;
      while first <= last
        invariant 0 <= first <= last + 1 <= |componentList|
        invariant Separated(componentList) ==> forall i :: 0 <= i < first ==> componentList[i].max < p
        invariant Separated(componentList) ==> forall i :: last < i < |componentList| ==> p < componentList[i].min
        invariant checkL.Some? ==> 0 <= check < |componentList| && checkL.value == componentList[check]
        invariant checkL.Some? ==>
          (first == check + 1 && componentList[check].min <= p) || (last == check - 1 && p < componentList[check].min)
        invariant checkL.None? ==> first == 0 && last == |componentList| - 1
        decreases last - first
      {
        check := (first + last) / 2;
        checkL := Some(componentList[check]);
        if checkL.value.Contains(p) {
          if Separated(componentList) {
            ContainingIs(componentList, check, p);
          }
          return checkL;
        }
        if p < checkL.value.min {
          if Separated(componentList) {
            NarrowBelow(componentList, check, last, p);
          }
          last := check - 1;
        } else {
          if Separated(componentList) {
            NarrowAbove(componentList, first, check, p);
          }
          first := check + 1;
        }
      }
      if Separated(componentList) {
        SearchGap(componentList, first, p);
      }
      if checkL.None? {
        assert first == |componentList| == 0;
        return None;
      }
      if p < checkL.value.min {
        assert check == first;
        return checkL;
      }
      assert check + 1 == first;
      if check + 1 < |componentList| {
        return Some(componentList[check + 1]);
      }
      return None;
    }

    /** symbolAt: the symbol of the component holding pos, else 'n'. */
    method SymbolAt(pos: int) returns (r: Result<char, AssemblyError>)
      modifies this
      ensures components == old(components) && componentList == old(componentList)
      ensures autoLength == old(autoLength) && length == old(length)
      ensures old(lastLocation).Some? && old(lastLocation).value.Contains(pos) ==> lastLocation == old(lastLocation)
      ensures old(lastLocation).Some? && old(lastLocation).value.Contains(pos) && old(lastLocation).value !in components ==>
        r == Err(NullComponent)
      ensures old(Valid()) ==> Valid()
      ensures Valid() && Separated(componentList) ==>
        lastLocation == if Containing(componentList, pos).Some? then Containing(componentList, pos) else old(lastLocation)
      ensures Valid() && Separated(componentList) && WellSized(components) ==> r == Ok(CharAt(components, componentList, pos))
    {
      var l := LocationOfPoint(pos);
      if l.Some? {
        var s := l.value;
        if s !in components {
          return Err(NullComponent);
        }
        var syms := components[s];
        var index := pos - s.min + 1;
        if index < 1 || index > |syms| {
          return Err(ComponentIndex);
        }
        if Valid() && Separated(componentList) && WellSized(components) {
          InComponent(components, componentList, s, pos);
        }
        return Ok(syms[index - 1]);
      }
      return Ok('n');
    }

    /** subList: the stretch of the one component that holds both start and end, else a view. */
    method SubList(start: int, end: int) returns (r: SubList)
      modifies this
      ensures components == old(components) && componentList == old(componentList)
      ensures autoLength == old(autoLength) && length == old(length)
      ensures old(Valid()) ==> Valid()
      ensures r.View? ==> r == View(start, end)
      ensures r.ComponentSlice? ==>
        r.location.Contains(start) && r.location.Contains(end) &&
        r.start == start - r.location.min + 1 && r.end == end - r.location.min + 1
      ensures Valid() && Separated(componentList) ==>
        (r.ComponentSlice? <==> Containing(componentList, start).Some? && Containing(componentList, start).value.Contains(end))
      ensures Valid() && Separated(componentList) && WellSized(components) && r.ComponentSlice? && start <= end ==>
        r.location in components &&
        var t := components[r.location][r.start - 1 .. r.end];
        |t| == end - start + 1 && ReadsFrom(components, componentList, t, start)
    {
      var l := LocationOfPoint(start);
      if l.Some? && l.value.Contains(end) {
        var s := l.value;
        r := ComponentSlice(s, start - s.min + 1, end - s.min + 1);
        if Valid() && Separated(componentList) && WellSized(components) && start <= end {
          SliceReads(components, componentList, s, r.start - 1, r.end, start);
        }
        return;
      }
      r := View(start, end);
    }

    /**
     * One stretch of subStr: the symbols of component s from pos up to its end or to `end`,
     * whichever comes first, fetched by the component's own subStr.
     */
    method ComponentStretch(s: Span, pos: int, end: int) returns (r: Result<string, AssemblyError>)
      requires s.Contains(pos) && pos <= end
      ensures s !in components ==> r == Err(NullComponent)
      ensures r.Err? ==> r.error == NullComponent || r.error == ComponentIndex
      ensures r.Ok? ==> |r.value| == (if s.max < end then s.max else end) - pos + 1
      ensures Valid() && WellSized(components) && Separated(componentList) && s in components ==>
        r.Ok? && ReadsFrom(components, componentList, r.value, pos)
    {
      if s !in components {
        return Err(NullComponent);
      }
      var sl := components[s];
      var slStart := if 1 < pos - s.min + 1 then pos - s.min + 1 else 1;
      var slEnd := if s.max - s.min + 1 < end - s.min + 1 then s.max - s.min + 1 else end - s.min + 1;
      if slStart < 1 || slEnd > |sl| {
        return Err(ComponentIndex);
      }
      if Valid() && WellSized(components) && Separated(componentList) {
        SliceReads(components, componentList, s, slStart - 1, slEnd, pos);
      }
      r := Ok(sl[slStart - 1 .. slEnd]);
    }

    /**
     * One turn of subStr's loop at pos: the stretch of the component holding pos, or the 'n'
     * symbols up to the next component to start, and the position the loop goes on from.
     */
    method NextStretch(pos: int, end: int) returns (r: Result<string, AssemblyError>, next: int)
      requires Separated(componentList) && pos <= end
      modifies this
      ensures components == old(components) && componentList == old(componentList)
      ensures autoLength == old(autoLength) && length == old(length)
      ensures old(Valid()) ==> Valid()
      ensures r.Err? ==> r.error == NullComponent || r.error == ComponentIndex
      ensures r.Ok? ==> pos < next && |r.value| == (if next <= end + 1 then next else end + 1) - pos
      ensures old(Valid()) && WellSized(components) ==> r.Ok? && ReadsFrom(components, componentList, r.value, pos)
    {
      var loc := LocationOfPoint(pos);
      if loc.Some? {
        r := ComponentStretch(loc.value, pos, end);
        next := if r.Ok? then pos + |r.value| else pos;
      } else {
        var ns;
        ns, next := GapStretch(pos, end);
        r := Ok(ns);
      }
    }

    /** The 'n' symbols subStr appends at a position in no component: up to the next component to start, or to `end`. */
    method GapStretch(pos: int, end: int) returns (ns: string, next: int)
      requires Separated(componentList) && pos <= end && Containing(componentList, pos).None?
      ensures pos < next && |ns| == (if next <= end + 1 then next else end + 1) - pos
      ensures WellSized(components) && Keys(components, componentList) ==> ReadsFrom(components, componentList, ns, pos)
    {
      var up := LocationUpstreamOfPoint(pos);
      assert up == FirstAfter(componentList, pos);
      var numNs: int;
      if up.Some? {
        numNs := (if up.value.min < end + 1 then up.value.min else end + 1) - pos;
        next := up.value.min;
      } else {
        numNs := end - pos + 1;
        next := end + 1;
      }
      ns := AppendN("", numNs);
      assert ns == NRun(numNs);
      if WellSized(components) && Keys(components, componentList) {
        GapReadsRun(components, componentList, pos, ns);
      }
    }

    /**
     * subStr: the symbols at start..end, taken a component stretch at a time, with an 'n' for
     * every position between components. The searches need the components separated.
     */
    method SubStr(start: int, end: int) returns (r: Result<string, AssemblyError>)
      requires Separated(componentList)
      modifies this
      ensures components == old(components) && componentList == old(componentList)
      ensures autoLength == old(autoLength) && length == old(length)
      ensures old(Valid()) ==> Valid()
      ensures r == Err(OutOfBounds) <==> start < 1 || (Length().Ok? && end > Length().value)
      ensures start >= 1 && Length().Err? ==> r == Err(NoComponents)
      ensures old(Valid()) && WellSized(components) && start >= 1 && Length().Ok? && end <= Length().value ==>
        r.Ok? && |r.value| == (if end < start then 0 else end - start + 1) &&
        ReadsFrom(components, componentList, r.value, start)
    {
      if start < 1 {
        return Err(OutOfBounds);
      }
      var len := Length();
      if len.Err? {
        return Err(len.error);
      }
      if end > len.value {
        return Err(OutOfBounds);
      }
      r := Collect(start, end);
    }

    /** The loop of subStr: stretch after stretch from start until end is passed. */
    method Collect(start: int, end: int) returns (r: Result<string, AssemblyError>)
      requires Separated(componentList)
      modifies this
      ensures components == old(components) && componentList == old(componentList)
      ensures autoLength == old(autoLength) && length == old(length)
      ensures old(Valid()) ==> Valid()
      ensures r.Err? ==> r.error == NullComponent || r.error == ComponentIndex
      ensures old(Valid()) && WellSized(components) ==>
        r.Ok? && |r.value| == (if end < start then 0 else end - start + 1) &&
        ReadsFrom(components, componentList, r.value, start)
    {
      ghost var sound := Valid() && WellSized(components);
      var sb := "";
      var pos := start;
      ghost var stop := if start <= end then end + 1 else start;
      while pos <= end
        invariant components == old(components) && componentList == old(componentList)
        invariant autoLength == old(autoLength) && length == old(length)
        invariant old(Valid()) ==> Valid()
        invariant sound ==> Valid() && WellSized(components)
        invariant start <= pos
        invariant stop == end + 1 || pos == start == stop
        invariant |sb| == (if pos <= stop then pos else stop) - start
        invariant sound ==> ReadsFrom(components, componentList, sb, start)
        decreases end + 1 - pos
      {
        var piece, next := NextStretch(pos, end);
        if piece.Err? {
          return Err(piece.error);
        }
        if sound {
          ReadsConcat(components, componentList, sb, piece.value, start, pos);
        }
        sb := sb + piece.value;
        pos := next;
      }
      return Ok(sb);
    }
  }

  /** A single key is its own sorted list. */
  lemma SortedSingle(x: Span)
    ensures SortedKeys({x}) == [x]
  {
    assert MinKey({x}) == x;
    assert {x} - {x} == {};
  }

  /**
   * The cache outliving removeComponent: component 1..4 ("acgt") is read at 2, which caches
   * its location, and then removed. Read at 2 again, the source finds the removed location in
   * the cache and fails on its missing symbols.
   */
  method StaleCacheAsWritten() returns (before: Result<char, AssemblyError>, after: Result<char, AssemblyError>)
    ensures before == Ok('c')
    ensures after == Err(NullComponent)
  {
    var a := new AssembledSymbolList();
    var put := a.PutComponent(Span(1, 4), Symbols("acgt"));
    SortedSingle(Span(1, 4));
    assert a.componentList == [Span(1, 4)];
    before := a.SymbolAt(2);
    assert a.lastLocation == Some(Span(1, 4));
    a.RemoveComponentAsWritten(Span(1, 4));
    after := a.SymbolAt(2);
  }

  /** The same reads with the cache cleared on removal: the position, now in no component, reads 'n'. */
  method StaleCacheCorrected() returns (before: Result<char, AssemblyError>, after: Result<char, AssemblyError>)
    ensures before == Ok('c')
    ensures after == Ok('n')
  {
    var b := new AssembledSymbolList();
    var put := b.PutComponent(Span(1, 4), Symbols("acgt"));
    SortedSingle(Span(1, 4));
    before := b.SymbolAt(2);
    b.RemoveComponent(Span(1, 4));
    assert b.components.Keys == {};
    after := b.SymbolAt(2);
  }
}
