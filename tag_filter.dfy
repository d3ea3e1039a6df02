/**
 * The tag filter of assets/js/main.js: `filter(tag)` highlights the selector
 * item of `tag` and shows its post list. Both helpers have one shape: reset
 * every element of a class collection to a fixed class list, then overwrite
 * the class of the element whose id is `tag` plus a suffix, if there is one.
 *
 * The functions here say what each operation leaves in the document (as a
 * function of the document before it); the methods do it in place on a
 * `Document` and are proved to leave exactly that.
 */
module TagFilter {
  import opened Dom

  const ItemClass := "tag__item"
  const ActiveClass := "tag--active"
  const PostsClass := "posts"
  const HiddenClass := "hidden"
  const ItemSuffix := "-item"
  const PostsSuffix := "-posts"

  /** The class list each selector item is reset to, and the one the chosen item gets. */
  const ItemReset := [ItemClass]
  const ItemSelected := [ItemClass, ActiveClass]
  /** The class list each post list is reset to, and the one the chosen list gets. */
  const PostsReset := [PostsClass, HiddenClass]
  const PostsSelected := [PostsClass]

  /** The loop half: every member of the marker collection gets class reset. */
  function ResetAll(doc: seq<Elem>, marker: string, reset: seq<string>): (r: seq<Elem>)
    ensures |r| == |doc|
    ensures forall k :: 0 <= k < |doc| ==> r[k].id == doc[k].id
    ensures forall k :: 0 <= k < |doc| ==> r[k].cls == if marker in doc[k].cls then reset else doc[k].cls
  {
    Overwrite(doc, Collection(doc, marker), reset)
  }

  /** The lookup half: the first element with the id, if any, gets class selected. */
  function SelectById(doc: seq<Elem>, id: string, selected: seq<string>): (r: seq<Elem>)
    ensures |r| == |doc|
    ensures forall k :: 0 <= k < |doc| ==> r[k].id == doc[k].id
    ensures forall k :: 0 <= k < |doc| ==> r[k].cls == if ElementById(doc, id) == Some(k) then selected else doc[k].cls
  {
    match ElementById(doc, id)
    case None => doc
    case Some(k) => SetClass(doc, k, selected)
  }

  /**
   * Reset-then-select element by element, in terms of the document before
   * the call: the first element with the id gets selected, every other
   * element carrying the marker gets reset, and the rest are untouched.
   */
  function ResetThenSelect(doc: seq<Elem>, marker: string, reset: seq<string>, id: string, selected: seq<string>): seq<Elem>
  {
    var hit := ElementById(doc, id);
    seq(|doc|, k requires 0 <= k < |doc| =>
      if hit == Some(k) then Elem(doc[k].id, selected)
      else if marker in doc[k].cls then Elem(doc[k].id, reset)
      else doc[k])
  }

  /**
   * The code's order, the reset loop and then the lookup in the document
   * the loop left, gives the element-by-element outcome above: the loop
   * keeps every id, so the lookup finds the same element it would have
   * found before the loop.
   */
  lemma CodeOrderIsResetThenSelect(doc: seq<Elem>, marker: string, reset: seq<string>, id: string, selected: seq<string>)
    ensures SelectById(ResetAll(doc, marker, reset), id, selected) == ResetThenSelect(doc, marker, reset, id, selected)
  {
    var afterLoop := ResetAll(doc, marker, reset);
    ElementByIdSameIds(afterLoop, doc, id);
    var r, expected := SelectById(afterLoop, id, selected), ResetThenSelect(doc, marker, reset, id, selected);
    forall k | 0 <= k < |doc|
      ensures r[k] == expected[k]
    {
      assert r[k] == Elem(r[k].id, r[k].cls);
    }
  }

  /** The selector item carries both tokens: it is highlighted. */
  predicate Highlighted(e: Elem)
  {
    ItemClass in e.cls && ActiveClass in e.cls
  }

  /** The post list carries `posts` and not `hidden`: it is shown. */
  predicate Shown(e: Elem)
  {
    PostsClass in e.cls && HiddenClass !in e.cls
  }

  /** The document `setActiveTag(tag)` leaves. */
  function AfterSetActiveTag(doc: seq<Elem>, tag: string): seq<Elem>
  {
    ResetThenSelect(doc, ItemClass, ItemReset, tag + ItemSuffix, ItemSelected)
  }

  /** The document `showContainer(tag)` leaves. */
  function AfterShowContainer(doc: seq<Elem>, tag: string): seq<Elem>
  {
    ResetThenSelect(doc, PostsClass, PostsReset, tag + PostsSuffix, PostsSelected)
  }

  /** The document `filter(tag)` leaves: `setActiveTag(tag)`, then `showContainer(tag)` on its result. */
  function AfterFilter(doc: seq<Elem>, tag: string): seq<Elem>
  {
    AfterShowContainer(AfterSetActiveTag(doc, tag), tag)
  }

  /**
   * The loop both helpers open with: `setAttribute('class', reset)` on each
   * member of the marker collection. Because reset still carries the marker,
   * the live collection stays the snapshot the loop started from (the second
   * loop invariant), so iterating over the snapshot is what the browser does.
   */
  method ResetCollection(document: Document, marker: string, reset: seq<string>)
    requires document.Valid()
    requires marker in reset
    modifies document.elements
    ensures document.View() == ResetAll(old(document.View()), marker, reset)
  {
    ghost var before := document.View();
    var items := document.GetElementsByClassName(marker);
    for i := 0 to |items|
      invariant forall k :: k in items[..i] ==> k in items
      invariant document.View() == Overwrite(before, items[..i], reset)
      invariant Collection(document.View(), marker) == items
    {
      document.SetClassAt(items[i], reset);
      assert items[..i + 1][..i] == items[..i];
      CollectionOverwrite(before, marker, items[..i + 1], reset);
    }
    assert items[..|items|] == items;
  }

  /** The lookup both helpers close with: on a hit, `setAttribute('class', selected)`. */
  method SetClassById(document: Document, id: string, selected: seq<string>)
    requires document.Valid()
    modifies document.elements
    ensures document.View() == SelectById(old(document.View()), id, selected)
  {
    var found := document.GetElementById(id);
    if found.Some? {
      document.SetClassAt(found.value, selected);
    }
  }

  /** Both helpers' shape: the reset loop, then the lookup. */
  method ResetAndSelect(document: Document, marker: string, reset: seq<string>, id: string, selected: seq<string>)
    requires document.Valid()
    requires marker in reset
    modifies document.elements
    ensures document.View() == ResetThenSelect(old(document.View()), marker, reset, id, selected)
  {
    ghost var before := document.View();
    ResetCollection(document, marker, reset);
    SetClassById(document, id, selected);
    CodeOrderIsResetThenSelect(before, marker, reset, id, selected);
  }

  /** `setActiveTag(tag)`: un-highlight every selector item, then highlight `tag`'s. */
  method SetActiveTag(document: Document, tag: string)
    requires document.Valid()
    modifies document.elements
    ensures document.View() == AfterSetActiveTag(old(document.View()), tag)
  {
    ResetAndSelect(document, ItemClass, ItemReset, tag + ItemSuffix, ItemSelected);
  }

  /** `showContainer(tag)`: hide every post list, then show `tag`'s. */
  method ShowContainer(document: Document, tag: string)
    requires document.Valid()
    modifies document.elements
    ensures document.View() == AfterShowContainer(old(document.View()), tag)
  {
    ResetAndSelect(document, PostsClass, PostsReset, tag + PostsSuffix, PostsSelected);
  }

  /** `filter(tag)`: `setActiveTag(tag)`, then `showContainer(tag)` on the document it left. */
  method Filter(document: Document, tag: string)
    requires document.Valid()
    modifies document.elements
    ensures document.View() == AfterFilter(old(document.View()), tag)
  {
    SetActiveTag(document, tag);
    ShowContainer(document, tag);
  }
}
