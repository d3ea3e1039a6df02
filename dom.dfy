/**
 * The part of the browser's document that the tag filter uses: a table of
 * elements in document order, each with a fixed id and a class attribute,
 * the two lookups `getElementsByClassName` and `getElementById`, and
 * `setAttribute('class', ...)`.
 *
 * A class attribute is modelled as its sequence of class tokens, so the
 * attribute value "tag__item tag--active" is ["tag__item", "tag--active"].
 */
module Dom {

  datatype Option<T> = None | Some(value: T)

  /** What can be observed of one element: its id and its class tokens. */
  datatype Elem = Elem(id: string, cls: seq<string>)

  /** The indices k < n, in document order, of the elements carrying class token c. */
  function CollectionTo(doc: seq<Elem>, c: string, n: nat): (r: seq<nat>)
    requires n <= |doc|
    ensures forall k :: k in r <==> 0 <= k < n && c in doc[k].cls
    ensures forall i, j :: 0 <= i < j < |r| ==> r[i] < r[j]
  {
    if n == 0 then []
    else
      var init := CollectionTo(doc, c, n - 1);
      assert forall j :: 0 <= j < |init| ==> init[j] < n - 1 by {
        forall j | 0 <= j < |init| ensures init[j] < n - 1 { assert init[j] in init; }
      }
      init + (if c in doc[n - 1].cls then [n - 1] else [])
  }

  /**
   * `document.getElementsByClassName(c)`: every element carrying token c,
   * each once, in document order.
   */
  function Collection(doc: seq<Elem>, c: string): (r: seq<nat>)
    ensures forall k :: k in r <==> 0 <= k < |doc| && c in doc[k].cls
    ensures forall i, j :: 0 <= i < j < |r| ==> r[i] < r[j]
  {
    CollectionTo(doc, c, |doc|)
  }

  /** The first index k >= from whose element has the given id, if any. */
  function FirstFrom(doc: seq<Elem>, id: string, from: nat): (r: Option<nat>)
    ensures r.Some? ==> from <= r.value < |doc| && doc[r.value].id == id
    ensures r.Some? ==> forall j :: from <= j < r.value ==> doc[j].id != id
    ensures r.None? <==> forall j :: from <= j < |doc| ==> doc[j].id != id
    decreases |doc| - from
  {
    if from >= |doc| then None
    else if doc[from].id == id then Some(from)
    else FirstFrom(doc, id, from + 1)
  }

  /**
   * `document.getElementById(id)`: the first element in document order
   * with that id, or None (the source's `null`).
   */
  function ElementById(doc: seq<Elem>, id: string): (r: Option<nat>)
    ensures r.Some? ==> r.value < |doc| && doc[r.value].id == id
    ensures r.Some? ==> forall j :: 0 <= j < r.value ==> doc[j].id != id
    ensures r.None? <==> forall j :: 0 <= j < |doc| ==> doc[j].id != id
  {
    FirstFrom(doc, id, 0)
  }

  /** `setAttribute('class', v)` on element k: the whole token list is replaced. */
  function SetClass(doc: seq<Elem>, k: nat, v: seq<string>): (r: seq<Elem>)
    requires k < |doc|
    ensures |r| == |doc| && r[k] == Elem(doc[k].id, v)
    ensures forall j :: 0 <= j < |doc| && j != k ==> r[j] == doc[j]
  {
    doc[k := doc[k].(cls := v)]
  }

  /**
   * The elements at indices idxs, taken in order, each get class v; this is
   * what a loop of `setAttribute('class', v)` over a collection leaves.
   */
  function Overwrite(doc: seq<Elem>, idxs: seq<nat>, v: seq<string>): (r: seq<Elem>)
    requires forall k :: k in idxs ==> k < |doc|
    ensures |r| == |doc|
    ensures forall k :: 0 <= k < |doc| ==> r[k] == if k in idxs then Elem(doc[k].id, v) else doc[k]
  {
    if idxs == [] then doc
    else
      var n := |idxs| - 1;
      assert idxs == idxs[..n] + [idxs[n]];
      assert forall k :: k in idxs[..n] ==> k in idxs;
      assert idxs[n] in idxs;
      SetClass(Overwrite(doc, idxs[..n], v), idxs[n], v)
  }

  /** Two documents with the same elements in the same order and the same ids. */
  predicate SameIds(d1: seq<Elem>, d2: seq<Elem>)
  {
    |d1| == |d2| && forall k :: 0 <= k < |d1| ==> d1[k].id == d2[k].id
  }

  /** The id lookup sees only ids, so it gives the same answer on documents with the same ids. */
  lemma {:induction false} FirstFromSameIds(d1: seq<Elem>, d2: seq<Elem>, id: string, from: nat)
    requires SameIds(d1, d2)
    ensures FirstFrom(d1, id, from) == FirstFrom(d2, id, from)
    decreases |d1| - from
  {
    if from < |d1| && d1[from].id != id {
      FirstFromSameIds(d1, d2, id, from + 1);
    }
  }

  lemma ElementByIdSameIds(d1: seq<Elem>, d2: seq<Elem>, id: string)
    requires SameIds(d1, d2)
    ensures ElementById(d1, id) == ElementById(d2, id)
  {
    FirstFromSameIds(d1, d2, id, 0);
  }

  /**
   * The class lookup sees only whether each element carries the token, so
   * it gives the same answer on documents that agree on that.
   */
  lemma {:induction false} CollectionToSameMembers(d1: seq<Elem>, d2: seq<Elem>, c: string, n: nat)
    requires n <= |d1| == |d2|
    requires forall k :: 0 <= k < |d1| ==> (c in d1[k].cls <==> c in d2[k].cls)
    ensures CollectionTo(d1, c, n) == CollectionTo(d2, c, n)
  {
    if n > 0 {
      CollectionToSameMembers(d1, d2, c, n - 1);
    }
  }

  /**
   * Overwriting members of the c-collection with a class list that still
   * carries c leaves the collection as it was: a live collection neither
   * shrinks nor grows under such a loop.
   */
  lemma CollectionOverwrite(doc: seq<Elem>, c: string, idxs: seq<nat>, v: seq<string>)
    requires forall k :: k in idxs ==> k < |doc| && c in doc[k].cls
    requires c in v
    ensures Collection(Overwrite(doc, idxs, v), c) == Collection(doc, c)
  {
    CollectionToSameMembers(Overwrite(doc, idxs, v), doc, c, |doc|);
  }

  /** A DOM element: its id is fixed, its class attribute can be overwritten. */
  class Element {
    const id: string
    var cls: seq<string>

    constructor (id: string, cls: seq<string>)
      ensures this.id == id && this.cls == cls
    {
      this.id := id;
      this.cls := cls;
    }

    /** `setAttribute('class', value)`: any class the element had before is dropped. */
    method SetClassAttribute(value: seq<string>)
      modifies this
      ensures cls == value
    {
      cls := value;
    }
  }

  /**
   * The document: its elements in document order. Scripts here never add or
   * remove elements, so the sequence is fixed; the elements are distinct nodes.
   */
  class Document {
    const elements: seq<Element>

    ghost predicate Valid()
      reads this
    {
      forall i, j :: 0 <= i < j < |elements| ==> elements[i] != elements[j]
    }

    constructor (elements: seq<Element>)
      requires forall i, j :: 0 <= i < j < |elements| ==> elements[i] != elements[j]
      ensures this.elements == elements && Valid()
    {
      this.elements := elements;
    }

    /** The observable state of the document. */
    ghost function View(): (v: seq<Elem>)
      reads this, elements
      ensures |v| == |elements|
      ensures forall k :: 0 <= k < |elements| ==> v[k] == Elem(elements[k].id, elements[k].cls)
    {
      seq(|elements|, k reads this, elements requires 0 <= k < |elements| => Elem(elements[k].id, elements[k].cls))
    }

    /** `setAttribute('class', v)` on the element at index k; no other element changes. */
    method SetClassAt(k: nat, v: seq<string>)
      requires Valid() && k < |elements|
      modifies elements[k]
      ensures View() == SetClass(old(View()), k, v)
    {
      elements[k].SetClassAttribute(v);
    }

    /** `getElementsByClassName(c)`, taken as a snapshot of the indices. */
    method GetElementsByClassName(c: string) returns (items: seq<nat>)
      ensures items == Collection(View(), c)
      ensures forall k :: k in items <==> 0 <= k < |elements| && c in elements[k].cls
    {
      ghost var doc := View();
      items := [];
      for i := 0 to |elements|
        invariant items == CollectionTo(doc, c, i)
      {
        assert doc[i].cls == elements[i].cls;
        if c in elements[i].cls {
          items := items + [i];
        }
      }
    }

    /** `getElementById(id)`: the index of the first element with that id, or None. */
    method GetElementById(id: string) returns (r: Option<nat>)
      ensures r == ElementById(View(), id)
      ensures r.Some? ==> r.value < |elements| && elements[r.value].id == id
      ensures r.None? <==> forall j :: 0 <= j < |elements| ==> elements[j].id != id
    {
      ghost var doc := View();
      var i := 0;
      while i < |elements|
        invariant 0 <= i <= |elements|
        invariant FirstFrom(doc, id, i) == ElementById(doc, id)
      {
        assert doc[i].id == elements[i].id;
        if elements[i].id == id {
          return Some(i);
        }
        i := i + 1;
      }
      return None;
    }
  }
}
