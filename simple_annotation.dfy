/**
 * SimpleAnnotation: a property map that is allocated lazily, on the first write or
 * the first rendering. Before that, reading any property is an error; afterwards an
 * unknown key reads as null (None). Keys and values are modelled as strings, the text
 * that Java's string concatenation renders for them.
 */
module Annotations {
  import opened Wrappers

  datatype AnnotationError =
    | UnknownProperty(key: string)   // IllegalArgumentException before the map exists
    | NullMap                        // NullPointerException from keys() before the map exists

  /** One "key=value" entry as toString renders it. */
  function Entry(m: map<string, string>, k: string): string
    requires k in m
  {
    k + "=" + m[k]
  }

  /** The entries of `m` in iteration order `order`, separated by commas. */
  function Entries(m: map<string, string>, order: seq<string>): (r: string)
    requires forall k :: k in order ==> k in m
    ensures order == [] <==> r == []
    ensures |order| == 1 ==> r == Entry(m, order[0])
  {
    if order == [] then ""
    else if |order| == 1 then Entry(m, order[0])
    else Entries(m, order[..|order| - 1]) + "," + Entry(m, order[|order| - 1])
  }

  /** `order` lists every key of `m` exactly once: an iteration order of the map's key set. */
  predicate IsKeyOrder(m: map<string, string>, order: seq<string>)
  {
    (forall k :: k in order ==> k in m) && (forall k :: k in m ==> k in order) &&
    (forall i, j :: 0 <= i < j < |order| ==> order[i] != order[j])
  }

  /** The number of commas toString puts between entries is one less than the number of keys. */
  lemma {:induction false} EntriesSeparators(m: map<string, string>, order: seq<string>)
    requires forall k :: k in order ==> k in m
    requires forall k :: k in m ==> ',' !in k && ',' !in m[k]
    ensures multiset(Entries(m, order))[','] == if order == [] then 0 else |order| - 1
  {
    if |order| > 1 {
      var init := order[..|order| - 1];
      EntriesSeparators(m, init);
      var last := order[|order| - 1];
      assert ',' !in Entry(m, last);
      assert multiset(Entry(m, last))[','] == 0;
      assert multiset(Entries(m, order)) == multiset(Entries(m, init)) + multiset([',']) + multiset(Entry(m, last));
    } else if |order| == 1 {
      assert ',' !in Entry(m, order[0]);
      assert multiset(Entry(m, order[0]))[','] == 0;
    }
  }

  class SimpleAnnotation {
    /** None until the map has been allocated. */
    var properties: Option<map<string, string>>

    constructor ()
      ensures properties == None
    {
      properties := None;
    }

    /** The map the annotation holds, or the empty map getProperties would allocate. */
    function Current(): map<string, string>
      reads this
    {
      if properties.Some? then properties.value else map[]
    }

    /** getProperty: an error before allocation; afterwards the value, or None for an unknown key. */
    function GetProperty(key: string): (r: Result<Option<string>, AnnotationError>)
      reads this
      ensures properties.None? <==> r.Err?
      ensures properties.None? ==> r == Err(UnknownProperty(key))
      ensures properties.Some? && key !in properties.value ==> r == Ok(None)
      ensures properties.Some? && key in properties.value ==> r == Ok(Some(properties.value[key]))
    {
      if properties.Some? then
        Ok(if key in properties.value then Some(properties.value[key]) else None)
      else Err(UnknownProperty(key))
    }

    /** keys(): dereferences the map directly, so it fails before the first allocation. */
    function Keys(): (r: Result<set<string>, AnnotationError>)
      reads this
      ensures r.Ok? <==> properties.Some?
      ensures r.Ok? ==> forall k :: k in r.value <==> GetProperty(k).Ok? && GetProperty(k).value.Some?
    {
      if properties.Some? then Ok(properties.value.Keys) else Err(NullMap)
    }

    /** setProperty: allocates the map if needed and stores the value under the key. */
    method SetProperty(name: string, value: string)
      modifies this
      ensures properties == Some(old(Current())[name := value])
      ensures GetProperty(name) == Ok(Some(value))
      ensures forall k :: k != name ==> GetProperty(k) == Ok(if k in old(Current()) then Some(old(Current())[k]) else None)
    {
      properties := Some(Current()[name := value]);
    }

    /**
     * toString: allocates the map if needed, then renders "{k1=v1,k2=v2}" in the map's
     * iteration order, which is given as `order`.
     */
    method ToString(order: seq<string>) returns (r: string)
      requires IsKeyOrder(Current(), order)
      modifies this
      ensures properties == Some(old(Current()))
      ensures r == "{" + Entries(old(Current()), order) + "}"
      ensures r == "{}" <==> old(Current()) == map[]
    {
      properties := Some(Current());
      var prop := properties.value;
      var sb := "{";
      var i := 0;
      if i < |order| {
        sb := sb + Entry(prop, order[i]);
        i := i + 1;
      }
      while i < |order|
        invariant 0 <= i <= |order|
        invariant |order| > 0 ==> i >= 1
        invariant sb == "{" + Entries(prop, order[..i])
      {
        assert order[..i + 1][..i] == order[..i];
        sb := sb + "," + Entry(prop, order[i]);
        i := i + 1;
      }
      assert order[..i] == order;
      r := sb + "}";
      if order != [] {
        assert order[0] in prop;
      }
    }
  }
}
