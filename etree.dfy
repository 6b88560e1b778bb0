/** The part of the XML element API that the view-arch pass relies on.
    An element has a tag and an ORDERED list of attributes; lookups return
    the first attribute with the requested key, removal drops that first
    attribute, and creation overwrites it in place or appends a new one.
    Namespace prefixes on keys are not modelled: a key is its whole text. */
module Etree {
  import opened Wrappers

  datatype Attr = Attr(key: string, value: string)

  datatype Element = Element(tag: string, attrs: seq<Attr>)

  /** A parsed view arch: its elements in the order a descendant search
      visits them, and for each element the index of its parent (-1 for
      the root). The pass reads and rewrites elements only; the shape is
      carried through unchanged. */
  datatype Arch = Arch(parent: seq<int>, elements: seq<Element>)

  /** Position of the first attribute named `key`, or |attrs| if none. */
  function IndexOf(attrs: seq<Attr>, key: string): (i: nat)
    ensures i <= |attrs|
    ensures i < |attrs| ==> attrs[i].key == key
  {
    if attrs == [] then 0
    else if attrs[0].key == key then 0
    else 1 + IndexOf(attrs[1..], key)
  }

  /** No attribute before the first match carries the key. */
  lemma {:induction false} IndexOfSkips(attrs: seq<Attr>, key: string)
    ensures forall j :: 0 <= j < IndexOf(attrs, key) ==> attrs[j].key != key
  {
    if attrs != [] && attrs[0].key != key {
      IndexOfSkips(attrs[1..], key);
      assert forall j :: 1 <= j < IndexOf(attrs, key) ==> attrs[j] == attrs[1..][j - 1];
    }
  }

  /** The first-match position is determined by the three facts above. */
  lemma {:induction false} IndexOfIs(attrs: seq<Attr>, key: string, i: nat)
    requires i <= |attrs|
    requires i < |attrs| ==> attrs[i].key == key
    requires forall j :: 0 <= j < i ==> attrs[j].key != key
    ensures IndexOf(attrs, key) == i
  {
    if i > 0 {
      assert attrs[0].key != key;
      IndexOfIs(attrs[1..], key, i - 1);
    }
  }

  /** No key occurs twice, as in every well-formed XML element. */
  predicate UniqueKeys(attrs: seq<Attr>)
  {
    forall i, j :: 0 <= i < j < |attrs| ==> attrs[i].key != attrs[j].key
  }

  /** Element.SelectAttr: the value of the first attribute named `key`. */
  function SelectAttr(attrs: seq<Attr>, key: string): (r: Option<string>)
  {
    var i := IndexOf(attrs, key);
    if i < |attrs| then Some(attrs[i].value) else None
  }

  /** An attribute is found exactly when some attribute carries its key,
      and what is found is one of the element's attributes. */
  lemma SelectAttrFinds(attrs: seq<Attr>, key: string)
    ensures SelectAttr(attrs, key).Some? <==> exists j :: 0 <= j < |attrs| && attrs[j].key == key
    ensures SelectAttr(attrs, key).Some? ==> Attr(key, SelectAttr(attrs, key).value) in attrs
  {
    var i := IndexOf(attrs, key);
    IndexOfSkips(attrs, key);
    if i < |attrs| {
      assert attrs[i] == Attr(key, SelectAttr(attrs, key).value);
    }
  }

  predicate HasAttr(e: Element, key: string)
  {
    SelectAttr(e.attrs, key).Some?
  }

  /** Element.SelectAttrValue: the value of `key`, or `default` if absent. */
  function AttrValueOr(attrs: seq<Attr>, key: string, default: string): (r: string)
    ensures SelectAttr(attrs, key).None? ==> r == default
    ensures SelectAttr(attrs, key).Some? ==> Attr(key, r) in attrs
  {
    match SelectAttr(attrs, key)
    case Some(v) => v
    case None => default
  }

  /** Element.RemoveAttr: drops the first attribute named `key`, if any. */
  function RemoveAttr(attrs: seq<Attr>, key: string): (r: seq<Attr>)
    ensures |r| == if SelectAttr(attrs, key).Some? then |attrs| - 1 else |attrs|
  {
    var i := IndexOf(attrs, key);
    if i < |attrs| then attrs[..i] + attrs[i + 1..] else attrs
  }

  /** Removing `key` leaves every other lookup as it was; on unique keys,
      `key` is gone afterwards and the keys stay unique. */
  lemma RemoveAttrLookups(attrs: seq<Attr>, key: string)
    ensures forall k :: k != key ==> SelectAttr(RemoveAttr(attrs, key), k) == SelectAttr(attrs, k)
    ensures UniqueKeys(attrs) ==> UniqueKeys(RemoveAttr(attrs, key)) && SelectAttr(RemoveAttr(attrs, key), key) == None
  {
    var i := IndexOf(attrs, key);
    if i < |attrs| {
      RemoveAtKeepsOthers(attrs, key, i);
    }
  }

  lemma RemoveAtKeepsOther(attrs: seq<Attr>, key: string, i: nat, k: string)
    requires i < |attrs| && i == IndexOf(attrs, key) && k != key
    ensures SelectAttr(attrs[..i] + attrs[i + 1..], k) == SelectAttr(attrs, k)
  {
    var r := attrs[..i] + attrs[i + 1..];
    var n := IndexOf(attrs, k);
    IndexOfSkips(attrs, k);
    assert forall j :: 0 <= j < i ==> r[j] == attrs[j];
    if n < i {
      IndexOfIs(r, k, n);
    } else {
      assert n != i;
      assert forall j :: i <= j < |r| ==> r[j] == attrs[j + 1];
      IndexOfIs(r, k, n - 1);
    }
  }

  lemma RemoveAtKeepsOthers(attrs: seq<Attr>, key: string, i: nat)
    requires i < |attrs| && i == IndexOf(attrs, key)
    ensures forall k :: k != key ==> SelectAttr(attrs[..i] + attrs[i + 1..], k) == SelectAttr(attrs, k)
    ensures UniqueKeys(attrs) ==> UniqueKeys(attrs[..i] + attrs[i + 1..])
    ensures UniqueKeys(attrs) ==> SelectAttr(attrs[..i] + attrs[i + 1..], key) == None
  {
    var r := attrs[..i] + attrs[i + 1..];
    forall k | k != key
      ensures SelectAttr(r, k) == SelectAttr(attrs, k)
    {
      RemoveAtKeepsOther(attrs, key, i, k);
    }
    if UniqueKeys(attrs) {
      forall j | 0 <= j < |r| ensures r[j].key != key {
        if j < i { assert r[j] == attrs[j]; } else { assert r[j] == attrs[j + 1]; }
      }
      IndexOfIs(r, key, |r|);
    }
  }

  /** Element.CreateAttr: overwrites the first attribute named `key`, or
      appends one when there is none. */
  function CreateAttr(attrs: seq<Attr>, key: string, value: string): (r: seq<Attr>)
    ensures SelectAttr(r, key) == Some(value)
    ensures SelectAttr(attrs, key).None? ==> r == attrs + [Attr(key, value)]
  {
    var i := IndexOf(attrs, key);
    if i < |attrs| then
      OverwriteAt(attrs, key, value, i);
      attrs[i := Attr(key, value)]
    else
      Append(attrs, key, value);
      attrs + [Attr(key, value)]
  }

  /** Creating `key` leaves every other lookup as it was and keeps unique
      keys unique. */
  lemma CreateAttrLookups(attrs: seq<Attr>, key: string, value: string)
    ensures forall k :: k != key ==> SelectAttr(CreateAttr(attrs, key, value), k) == SelectAttr(attrs, k)
    ensures UniqueKeys(attrs) ==> UniqueKeys(CreateAttr(attrs, key, value))
  {
    var i := IndexOf(attrs, key);
    if i < |attrs| {
      OverwriteAt(attrs, key, value, i);
    } else {
      Append(attrs, key, value);
    }
  }

  lemma OverwriteAt(attrs: seq<Attr>, key: string, value: string, i: nat)
    requires i < |attrs| && i == IndexOf(attrs, key)
    ensures SelectAttr(attrs[i := Attr(key, value)], key) == Some(value)
    ensures forall k :: k != key ==> SelectAttr(attrs[i := Attr(key, value)], k) == SelectAttr(attrs, k)
    ensures UniqueKeys(attrs) ==> UniqueKeys(attrs[i := Attr(key, value)])
  {
    var r := attrs[i := Attr(key, value)];
    IndexOfSkips(attrs, key);
    IndexOfIs(r, key, i);
    forall k | k != key
      ensures SelectAttr(r, k) == SelectAttr(attrs, k)
    {
      IndexOfSkips(attrs, k);
      IndexOfIs(r, k, IndexOf(attrs, k));
    }
  }

  lemma Append(attrs: seq<Attr>, key: string, value: string)
    requires IndexOf(attrs, key) == |attrs|
    ensures SelectAttr(attrs + [Attr(key, value)], key) == Some(value)
    ensures forall k :: k != key ==> SelectAttr(attrs + [Attr(key, value)], k) == SelectAttr(attrs, k)
    ensures UniqueKeys(attrs) ==> UniqueKeys(attrs + [Attr(key, value)])
  {
    var r := attrs + [Attr(key, value)];
    IndexOfSkips(attrs, key);
    IndexOfIs(r, key, |attrs|);
    forall k | k != key
      ensures SelectAttr(r, k) == SelectAttr(attrs, k)
    {
      var n := IndexOf(attrs, k);
      IndexOfSkips(attrs, k);
      if n < |attrs| {
        IndexOfIs(r, k, n);
      } else {
        IndexOfIs(r, k, |r|);
      }
    }
    if UniqueKeys(attrs) {
      forall i, j | 0 <= i < j < |r| ensures r[i].key != r[j].key {
        assert r[i] == attrs[i];
        if j < |attrs| { assert r[j] == attrs[j]; }
      }
    }
  }
}
