/**
 * Properties of the tag filter that relate several calls, or state the
 * outcome of `filter(tag)` as a whole.
 */
module TagFilterProperties {
  import opened Dom
  import opened TagFilter

  /** Which of the class lists the filter writes count as highlighted or shown. */
  lemma ClassListFacts()
    ensures Highlighted(Elem("", ItemSelected)) && !Shown(Elem("", ItemSelected))
    ensures !Highlighted(Elem("", ItemReset)) && !Shown(Elem("", ItemReset))
    ensures Shown(Elem("", PostsSelected)) && !Highlighted(Elem("", PostsSelected))
    ensures !Shown(Elem("", PostsReset)) && !Highlighted(Elem("", PostsReset))
    ensures ItemClass !in PostsReset && ItemClass !in PostsSelected
    ensures PostsClass !in ItemReset && PostsClass !in ItemSelected
  {
  }

  /** Two different tags give two different ids under the same suffix. */
  lemma DistinctTagsDistinctIds(a: string, b: string, suffix: string)
    requires a != b
    ensures a + suffix != b + suffix
  {
    if |a| == |b| {
      assert exists i :: 0 <= i < |a| && a[i] != b[i];
      var i :| 0 <= i < |a| && a[i] != b[i];
      assert (a + suffix)[i] == a[i] && (b + suffix)[i] == b[i];
    }
  }

  /** A selector id and a post-list id never coincide. */
  lemma ItemIdIsNotPostsId(a: string, b: string)
    ensures a + ItemSuffix != b + PostsSuffix
  {
    var x, y := a + ItemSuffix, b + PostsSuffix;
    if |x| == |y| {
      assert x[|x| - 1] == 'm' && y[|y| - 1] == 's';
    }
  }

  /**
   * `setActiveTag(tag)`: every former `tag__item` element is plain
   * `tag__item`, except the first element with id tag + "-item", which is
   * `tag__item tag--active` and is the only highlighted element; the other
   * elements and every id are unchanged.
   */
  lemma SetActiveTagOutcome(doc: seq<Elem>, tag: string)
    ensures SameIds(AfterSetActiveTag(doc, tag), doc)
    ensures forall k :: 0 <= k < |doc| && ItemClass in doc[k].cls && ElementById(doc, tag + ItemSuffix) != Some(k) ==>
              AfterSetActiveTag(doc, tag)[k].cls == ItemReset
    ensures forall k :: ElementById(doc, tag + ItemSuffix) == Some(k) ==> AfterSetActiveTag(doc, tag)[k].cls == ItemSelected
    ensures forall k :: 0 <= k < |doc| ==>
              (Highlighted(AfterSetActiveTag(doc, tag)[k]) <==> ElementById(doc, tag + ItemSuffix) == Some(k))
    ensures forall k :: 0 <= k < |doc| && ItemClass !in doc[k].cls && ElementById(doc, tag + ItemSuffix) != Some(k) ==>
              AfterSetActiveTag(doc, tag)[k] == doc[k]
  {
  }

  /**
   * `setActiveTag(tag)` with no element of id tag + "-item": every former
   * `tag__item` element is plain `tag__item` and nothing is highlighted.
   */
  lemma SetActiveTagUnmatched(doc: seq<Elem>, tag: string)
    requires forall k :: 0 <= k < |doc| ==> doc[k].id != tag + ItemSuffix
    ensures forall k :: 0 <= k < |doc| && ItemClass in doc[k].cls ==> AfterSetActiveTag(doc, tag)[k].cls == ItemReset
    ensures forall k :: 0 <= k < |doc| ==> !Highlighted(AfterSetActiveTag(doc, tag)[k])
  {
  }

  /**
   * `showContainer(tag)`: every former `posts` element is `posts hidden`,
   * except the first element with id tag + "-posts", which is plain `posts`
   * and is the only shown element; the other elements and every id are
   * unchanged.
   */
  lemma ShowContainerOutcome(doc: seq<Elem>, tag: string)
    ensures SameIds(AfterShowContainer(doc, tag), doc)
    ensures forall k :: 0 <= k < |doc| && PostsClass in doc[k].cls && ElementById(doc, tag + PostsSuffix) != Some(k) ==>
              AfterShowContainer(doc, tag)[k].cls == PostsReset
    ensures forall k :: ElementById(doc, tag + PostsSuffix) == Some(k) ==> AfterShowContainer(doc, tag)[k].cls == PostsSelected
    ensures forall k :: 0 <= k < |doc| ==>
              (Shown(AfterShowContainer(doc, tag)[k]) <==> ElementById(doc, tag + PostsSuffix) == Some(k))
    ensures forall k :: 0 <= k < |doc| && PostsClass !in doc[k].cls && ElementById(doc, tag + PostsSuffix) != Some(k) ==>
              AfterShowContainer(doc, tag)[k] == doc[k]
  {
  }

  /**
   * What `filter(tag)` makes of one element: isItem says it is the first
   * element with id tag + "-item", isList that it is the first with id
   * tag + "-posts" (never both, the two ids differ).
   */
  function FilterElem(e: Elem, isItem: bool, isList: bool): Elem
  {
    if isList then Elem(e.id, PostsSelected)
    else if isItem then Elem(e.id, ItemSelected)
    else if ItemClass in e.cls then Elem(e.id, ItemReset)
    else if PostsClass in e.cls then Elem(e.id, PostsReset)
    else e
  }

  /** After `filter`, an element is highlighted exactly when it is the tag's selector, shown exactly when it is the tag's list. */
  lemma FilterElemMarks(e: Elem, isItem: bool, isList: bool)
    requires !(isItem && isList)
    ensures Highlighted(FilterElem(e, isItem, isList)) <==> isItem
    ensures Shown(FilterElem(e, isItem, isList)) <==> isList
  {
    ClassListFacts();
  }

  /** `filter(tag)` at one element, in terms of the document before it. */
  lemma FilterAt(doc: seq<Elem>, tag: string, k: nat)
    requires k < |doc|
    ensures |AfterFilter(doc, tag)| == |doc|
    ensures ElementById(doc, tag + ItemSuffix) != Some(k) || ElementById(doc, tag + PostsSuffix) != Some(k)
    ensures AfterFilter(doc, tag)[k] ==
              FilterElem(doc[k], ElementById(doc, tag + ItemSuffix) == Some(k), ElementById(doc, tag + PostsSuffix) == Some(k))
  {
    var item, list := ElementById(doc, tag + ItemSuffix), ElementById(doc, tag + PostsSuffix);
    var selectors := AfterSetActiveTag(doc, tag);
    ElementByIdSameIds(selectors, doc, tag + PostsSuffix);
    ItemIdIsNotPostsId(tag, tag);
    assert list == Some(k) ==> item != Some(k);
    ClassListFacts();
  }

  /**
   * `filter(tag)`, element by element: the first tag + "-posts" element is
   * plain `posts`, the first tag + "-item" element is highlighted, former
   * selector items are plain `tag__item`, former post lists are hidden, and
   * everything else is untouched. So exactly one selector item is
   * highlighted and exactly one post list is shown, each the one for tag
   * (none, when the id is missing).
   */
  lemma FilterOutcome(doc: seq<Elem>, tag: string)
    ensures SameIds(AfterFilter(doc, tag), doc)
    ensures forall k :: 0 <= k < |doc| ==>
              AfterFilter(doc, tag)[k] ==
                FilterElem(doc[k], ElementById(doc, tag + ItemSuffix) == Some(k), ElementById(doc, tag + PostsSuffix) == Some(k))
    ensures forall k :: 0 <= k < |doc| ==>
              (Highlighted(AfterFilter(doc, tag)[k]) <==> ElementById(doc, tag + ItemSuffix) == Some(k))
    ensures forall k :: 0 <= k < |doc| ==>
              (Shown(AfterFilter(doc, tag)[k]) <==> ElementById(doc, tag + PostsSuffix) == Some(k))
  {
    var item, list := ElementById(doc, tag + ItemSuffix), ElementById(doc, tag + PostsSuffix);
    forall k | 0 <= k < |doc|
      ensures AfterFilter(doc, tag)[k] == FilterElem(doc[k], item == Some(k), list == Some(k))
      ensures Highlighted(AfterFilter(doc, tag)[k]) <==> item == Some(k)
      ensures Shown(AfterFilter(doc, tag)[k]) <==> list == Some(k)
    {
      FilterAt(doc, tag, k);
      FilterElemMarks(doc[k], item == Some(k), list == Some(k));
    }
  }

  /** Both helpers' shape is idempotent when the reset and selected lists keep the marker. */
  lemma ResetThenSelectIdempotent(doc: seq<Elem>, marker: string, reset: seq<string>, id: string, selected: seq<string>)
    requires marker in reset && marker in selected
    ensures ResetThenSelect(ResetThenSelect(doc, marker, reset, id, selected), marker, reset, id, selected)
            == ResetThenSelect(doc, marker, reset, id, selected)
  {
    var once := ResetThenSelect(doc, marker, reset, id, selected);
    var twice := ResetThenSelect(once, marker, reset, id, selected);
    ElementByIdSameIds(once, doc, id);
    forall k | 0 <= k < |doc|
      ensures twice[k] == once[k]
    {
      assert twice[k] == Elem(once[k].id, once[k].cls);
    }
  }

  /** `setActiveTag(tag); setActiveTag(tag)` leaves what one call leaves. */
  lemma SetActiveTagIdempotent(doc: seq<Elem>, tag: string)
    ensures AfterSetActiveTag(AfterSetActiveTag(doc, tag), tag) == AfterSetActiveTag(doc, tag)
  {
    ResetThenSelectIdempotent(doc, ItemClass, ItemReset, tag + ItemSuffix, ItemSelected);
  }

  /** `showContainer(tag); showContainer(tag)` leaves what one call leaves. */
  lemma ShowContainerIdempotent(doc: seq<Elem>, tag: string)
    ensures AfterShowContainer(AfterShowContainer(doc, tag), tag) == AfterShowContainer(doc, tag)
  {
    ResetThenSelectIdempotent(doc, PostsClass, PostsReset, tag + PostsSuffix, PostsSelected);
  }

  /** Applying the per-element outcome twice changes nothing. */
  lemma FilterElemIdempotent(e: Elem, isItem: bool, isList: bool)
    requires !(isItem && isList)
    ensures FilterElem(FilterElem(e, isItem, isList), isItem, isList) == FilterElem(e, isItem, isList)
  {
    ClassListFacts();
  }

  /** `filter(tag)` a second time leaves element k as the first call left it. */
  lemma FilterIdempotentAt(doc: seq<Elem>, tag: string, k: nat)
    requires k < |doc|
    ensures |AfterFilter(AfterFilter(doc, tag), tag)| == |doc|
    ensures AfterFilter(AfterFilter(doc, tag), tag)[k] == AfterFilter(doc, tag)[k]
  {
    var once := AfterFilter(doc, tag);
    var isItem, isList := ElementById(doc, tag + ItemSuffix) == Some(k), ElementById(doc, tag + PostsSuffix) == Some(k);
    FilterAt(doc, tag, k);
    FilterOutcome(doc, tag);
    ElementByIdSameIds(once, doc, tag + ItemSuffix);
    ElementByIdSameIds(once, doc, tag + PostsSuffix);
    FilterAt(once, tag, k);
    FilterElemIdempotent(doc[k], isItem, isList);
  }

  /** `filter(tag); filter(tag)` leaves what one call leaves. */
  lemma FilterIdempotent(doc: seq<Elem>, tag: string)
    ensures AfterFilter(AfterFilter(doc, tag), tag) == AfterFilter(doc, tag)
  {
    var once := AfterFilter(doc, tag);
    var twice := AfterFilter(once, tag);
    forall k | 0 <= k < |doc|
      ensures twice[k] == once[k]
    {
      FilterIdempotentAt(doc, tag, k);
    }
  }

  /**
   * Switching selectors: after `setActiveTag(a)` then `setActiveTag(b)` with
   * a != b, the first a + "-item" element is plain `tag__item` again, since
   * the first call put it into the `tag__item` collection, and the first
   * b + "-item" element is highlighted.
   */
  lemma SetActiveTagSwitch(doc: seq<Elem>, a: string, b: string)
    requires a != b
    ensures forall k :: ElementById(doc, a + ItemSuffix) == Some(k) ==>
              AfterSetActiveTag(AfterSetActiveTag(doc, a), b)[k].cls == ItemReset
    ensures forall k :: ElementById(doc, b + ItemSuffix) == Some(k) ==>
              AfterSetActiveTag(AfterSetActiveTag(doc, a), b)[k].cls == ItemSelected
  {
    var first := AfterSetActiveTag(doc, a);
    ElementByIdSameIds(first, doc, b + ItemSuffix);
    DistinctTagsDistinctIds(a, b, ItemSuffix);
  }

  /**
   * Switching post lists: after `showContainer(a)` then `showContainer(b)`
   * with a != b, the first a + "-posts" element is hidden again and the
   * first b + "-posts" element is shown.
   */
  lemma ShowContainerSwitch(doc: seq<Elem>, a: string, b: string)
    requires a != b
    ensures forall k :: ElementById(doc, a + PostsSuffix) == Some(k) ==>
              AfterShowContainer(AfterShowContainer(doc, a), b)[k].cls == PostsReset
    ensures forall k :: ElementById(doc, b + PostsSuffix) == Some(k) ==>
              AfterShowContainer(AfterShowContainer(doc, a), b)[k].cls == PostsSelected
  {
    var first := AfterShowContainer(doc, a);
    ElementByIdSameIds(first, doc, b + PostsSuffix);
    DistinctTagsDistinctIds(a, b, PostsSuffix);
  }

  /**
   * The per-element outcome of `filter(a)` then `filter(b)`: whatever a's
   * call set on a's selector or list, b's call resets it, since it now
   * carries `tag__item` or `posts`.
   */
  lemma FilterElemSwitch(e: Elem, isItemA: bool, isListA: bool, isItemB: bool, isListB: bool)
    requires !(isItemA && isListA) && !(isItemB && isListB)
    requires !(isItemA && isItemB) && !(isItemA && isListB) && !(isListA && isItemB) && !(isListA && isListB)
    ensures isItemA ==> FilterElem(FilterElem(e, isItemA, isListA), isItemB, isListB).cls == ItemReset
    ensures isListA ==> FilterElem(FilterElem(e, isItemA, isListA), isItemB, isListB).cls == PostsReset
    ensures isItemB ==> FilterElem(FilterElem(e, isItemA, isListA), isItemB, isListB).cls == ItemSelected
    ensures isListB ==> FilterElem(FilterElem(e, isItemA, isListA), isItemB, isListB).cls == PostsSelected
  {
    ClassListFacts();
  }

  /** `filter(a)` then `filter(b)`, a != b, at one element. */
  lemma FilterSwitchAt(doc: seq<Elem>, a: string, b: string, k: nat)
    requires a != b && k < |doc|
    ensures ElementById(doc, a + ItemSuffix) == Some(k) ==> AfterFilter(AfterFilter(doc, a), b)[k].cls == ItemReset
    ensures ElementById(doc, a + PostsSuffix) == Some(k) ==> AfterFilter(AfterFilter(doc, a), b)[k].cls == PostsReset
    ensures ElementById(doc, b + ItemSuffix) == Some(k) ==> AfterFilter(AfterFilter(doc, a), b)[k].cls == ItemSelected
    ensures ElementById(doc, b + PostsSuffix) == Some(k) ==> AfterFilter(AfterFilter(doc, a), b)[k].cls == PostsSelected
  {
    var first := AfterFilter(doc, a);
    var isItemA, isListA := ElementById(doc, a + ItemSuffix) == Some(k), ElementById(doc, a + PostsSuffix) == Some(k);
    var isItemB, isListB := ElementById(doc, b + ItemSuffix) == Some(k), ElementById(doc, b + PostsSuffix) == Some(k);
    FilterAt(doc, a, k);
    FilterAt(doc, b, k);
    FilterOutcome(doc, a);
    ElementByIdSameIds(first, doc, b + ItemSuffix);
    ElementByIdSameIds(first, doc, b + PostsSuffix);
    FilterAt(first, b, k);
    DistinctTagsDistinctIds(a, b, ItemSuffix);
    DistinctTagsDistinctIds(a, b, PostsSuffix);
    ItemIdIsNotPostsId(a, b);
    ItemIdIsNotPostsId(b, a);
    FilterElemSwitch(doc[k], isItemA, isListA, isItemB, isListB);
  }

  /**
   * Switching tags: after `filter(a)` then `filter(b)` with a != b, a's
   * selector item is plain `tag__item` and a's post list is hidden, while
   * b's selector item is highlighted and b's post list is shown.
   */
  lemma FilterSwitch(doc: seq<Elem>, a: string, b: string)
    requires a != b
    ensures forall k :: ElementById(doc, a + ItemSuffix) == Some(k) ==>
              AfterFilter(AfterFilter(doc, a), b)[k].cls == ItemReset
    ensures forall k :: ElementById(doc, a + PostsSuffix) == Some(k) ==>
              AfterFilter(AfterFilter(doc, a), b)[k].cls == PostsReset
    ensures forall k :: ElementById(doc, b + ItemSuffix) == Some(k) ==>
              AfterFilter(AfterFilter(doc, a), b)[k].cls == ItemSelected
    ensures forall k :: ElementById(doc, b + PostsSuffix) == Some(k) ==>
              AfterFilter(AfterFilter(doc, a), b)[k].cls == PostsSelected
  {
    forall k | 0 <= k < |doc| {
      FilterSwitchAt(doc, a, b, k);
    }
  }

  /** The page markup of the example: a selector item and a post list for each of two tags, "design" selected. */
  function DesignCodePage(): seq<Elem>
  {
    [Elem("design-item", ItemSelected), Elem("code-item", ItemReset),
     Elem("design-posts", PostsSelected), Elem("code-posts", PostsReset)]
  }

  /**
   * `filter("code")` on that page highlights `code-item` and not
   * `design-item`, shows `code-posts` and hides `design-posts`.
   */
  lemma DesignCodeScenario()
    ensures AfterFilter(DesignCodePage(), "code") ==
              [Elem("design-item", ItemReset), Elem("code-item", ItemSelected),
               Elem("design-posts", PostsReset), Elem("code-posts", PostsSelected)]
  {
    var page := DesignCodePage();
    assert "code" + ItemSuffix == "code-item" && "code" + PostsSuffix == "code-posts";
    assert ElementById(page, "code-item") == Some(1) by {
      assert page[0].id != "code-item";
    }
    assert ElementById(page, "code-posts") == Some(3) by {
      assert page[0].id != "code-posts" && page[1].id != "code-posts" && page[2].id != "code-posts";
    }
    ClassListFacts();
    FilterAt(page, "code", 0);
    FilterAt(page, "code", 1);
    FilterAt(page, "code", 2);
    FilterAt(page, "code", 3);
  }

  /** The same example on a live document: the page is built, then `filter("code")` runs in place. */
  method DesignCodeClient()
  {
    var designItem := new Element("design-item", ItemSelected);
    var codeItem := new Element("code-item", ItemReset);
    var designPosts := new Element("design-posts", PostsSelected);
    var codePosts := new Element("code-posts", PostsReset);
    var document := new Document([designItem, codeItem, designPosts, codePosts]);
    assert document.View() == DesignCodePage();
    Filter(document, "code");
    DesignCodeScenario();
    assert document.View()[1].cls == ItemSelected && document.View()[0].cls == ItemReset;
    assert codeItem.cls == ItemSelected && designItem.cls == ItemReset;
    assert document.View()[3].cls == PostsSelected && document.View()[2].cls == PostsReset;
    assert codePosts.cls == PostsSelected && designPosts.cls == PostsReset;
  }
}
