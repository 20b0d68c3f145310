/**
 * CacheList: a write-back overlay on a transactional, searchable list. Writes go to a
 * shadow list; reads prefer a non-null shadow entry and otherwise read through to the
 * delegate; commit replaces the delegate's contents with the shadow; rollback drops the
 * shadow. Elements are `Option<T>`, with None standing for Java's null.
 *
 * The delegate is a separate object in Java whose commit and rollback are not part of
 * this model; here it is represented by two fields of the cache list itself: its current
 * contents and the contents its last commit made durable (to which rollback returns).
 */
module CacheLists {
  import opened Wrappers

  datatype ListError = IndexOutOfBounds

  /** `n` nulls: the shadow of a list whose slots have not been written. */
  function Nulls<T>(n: nat): (r: seq<Option<T>>)
    ensures |r| == n && forall i :: 0 <= i < n ==> r[i] == None
  {
    seq(n, _ => None)
  }

  class CacheList<T(==)> {
    var delegate: seq<Option<T>>
    var durable: seq<Option<T>>
    var shadow: seq<Option<T>>

    /** The constructor: a shadow of `delegate.size()` nulls, appended one at a time. */
    constructor (contents: seq<Option<T>>)
      ensures delegate == contents && durable == contents
      ensures shadow == Nulls(|contents|)
    {
      delegate := contents;
      durable := contents;
      var s: seq<Option<T>> := [];
      var i := 0;
      while i < |contents|
        invariant 0 <= i <= |contents|
        invariant s == Nulls(i)
      {
        s := s + [None];
        i := i + 1;
      }
      shadow := s;
    }

    function Size(): (n: nat)
      reads this
      ensures n == |shadow|
    {
      |shadow|
    }

    /**
     * get: the shadow entry when it is not null, else the delegate's entry; an index
     * outside the shadow or, on read-through, outside the delegate is an error. Reading
     * does not change the shadow.
     */
    function Get(i: int): (r: Result<Option<T>, ListError>)
      reads this
      ensures r.Ok? <==> 0 <= i < |shadow| && (shadow[i].Some? || i < |delegate|)
      ensures r.Ok? && shadow[i].Some? ==> r.value == shadow[i]
      ensures r.Ok? && shadow[i].None? ==> r.value == delegate[i]
    {
      if i < 0 || i >= |shadow| then Err(IndexOutOfBounds)
      else if shadow[i].Some? then Ok(shadow[i])
      else if i < |delegate| then Ok(delegate[i])
      else Err(IndexOutOfBounds)
    }

    /** set: writes the shadow only and returns the previous shadow entry. */
    method Set(i: int, val: Option<T>) returns (r: Result<Option<T>, ListError>)
      modifies this
      ensures 0 <= i < old(|shadow|) ==> r == Ok(old(shadow[i])) && shadow == old(shadow)[i := val]
      ensures !(0 <= i < old(|shadow|)) ==> r == Err(IndexOutOfBounds) && shadow == old(shadow)
      ensures delegate == old(delegate) && durable == old(durable)
      ensures val.Some? && 0 <= i < |shadow| ==> Get(i) == Ok(val)
      ensures forall j :: 0 <= j < |shadow| && j != i ==> Get(j) == old(Get(j))
    {
      if i < 0 || i >= |shadow| {
        return Err(IndexOutOfBounds);
      }
      r := Ok(shadow[i]);
      shadow := shadow[i := val];
    }

    /** add: appends to the shadow only. */
    method Add(val: Option<T>) returns (r: bool)
      modifies this
      ensures r && shadow == old(shadow) + [val]
      ensures delegate == old(delegate) && durable == old(durable)
      ensures forall j :: 0 <= j < old(|shadow|) ==> Get(j) == old(Get(j))
    {
      shadow := shadow + [val];
      return true;
    }

    /**
     * commit: clears the delegate, re-adds every shadow entry in order (nulls included)
     * and commits the delegate. Afterwards every slot reads as its shadow entry, so a slot
     * that was only ever read through now reads as null.
     */
    method Commit()
      modifies this
      ensures delegate == old(shadow) && durable == old(shadow) && shadow == old(shadow)
      ensures forall j :: 0 <= j < |shadow| ==> Get(j) == Ok(shadow[j])
    {
      var d: seq<Option<T>> := [];
      var k := 0;
      while k < |shadow|
        invariant 0 <= k <= |shadow|
        invariant d == shadow[..k]
      {
        d := d + [shadow[k]];
        k := k + 1;
      }
      assert d == shadow;
      delegate := d;
      durable := delegate;
    }

    /** rollback: the delegate returns to its durable contents and the shadow to all nulls. */
    method Rollback()
      modifies this
      ensures delegate == old(durable) && durable == old(durable)
      ensures shadow == Nulls(|delegate|)
      ensures forall j :: 0 <= j < Size() ==> Get(j) == Ok(durable[j])
    {
      delegate := durable;
      var s: seq<Option<T>> := [];
      var i := 0;
      while i < |delegate|
        invariant 0 <= i <= |delegate|
        invariant s == Nulls(i)
      {
        s := s + [None];
        i := i + 1;
      }
      shadow := s;
    }
  }
}
