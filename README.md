# Tag filter of a blog page, modelled in Dafny

The blog page lists its posts under tags. A row of selector items (class
`tag__item`) lets the reader pick a tag, and each tag has a post list
(class `posts`). Clicking a tag calls `filter(tag)` in `assets/js/main.js`,
which runs two helpers:

- `setActiveTag(tag)` sets the class of every `tag__item` element to
  exactly `tag__item`. Then, if an element has id `tag + "-item"`, it sets
  that element's class to `tag__item tag--active`.
- `showContainer(tag)` sets the class of every `posts` element to
  `posts hidden`. Then, if an element has id `tag + "-posts"`, it sets
  that element's class to `posts`.

This project models the browser document those helpers work on, the helpers
themselves as in-place methods, and properties of what they leave behind.

## Structure

- `dom.dfy`, module `Dom`: the document.
  - `Elem` is what can be seen of one element: its id and its class tokens.
    The attribute `"tag__item tag--active"` is the token list
    `["tag__item", "tag--active"]`.
  - `Collection` is `getElementsByClassName`: the matching indices, in
    document order.
  - `ElementById` is `getElementById`: the first index in document order
    with that id, or `None` for the source's `null`.
  - `SetClass` and `Overwrite` are `setAttribute('class', v)` on one element
    and on a list of elements.
  - `Element` is a class with a fixed `id` and a mutable `cls`.
  - `Document` is a class holding the fixed sequence of distinct elements.
    Its ghost `View()` gives the document as a `seq<Elem>`, and its methods
    are the two lookups and the class write.
- `tag_filter.dfy`, module `TagFilter`: the filter.
  - `ResetThenSelect` describes, element by element, what both helpers do.
    `AfterSetActiveTag`, `AfterShowContainer` and `AfterFilter` apply it.
  - `ResetAll` and `SelectById` follow the code's own order: the loop, then
    the lookup. `CodeOrderIsResetThenSelect` proves that this order gives
    the element-by-element description.
  - The methods `SetActiveTag`, `ShowContainer` and `Filter` change a
    `Document` in place. Each is proved to leave
    `View() == After…(old(View()), tag)`.
- `tag_filter_properties.dfy`, module `TagFilterProperties`: properties of
  the filter. These cover the outcome of each call, what happens when the id
  is missing, idempotence, switching from one tag to another, and a worked
  two-tag page.

Both helpers have the same shape, so the model writes it once:
`ResetAndSelect(document, marker, reset, id, selected)`.
`SetActiveTag` calls it with `tag__item`, `[tag__item]`, `tag + "-item"`
and `[tag__item, tag--active]`. `ShowContainer` calls it with `posts`,
`[posts, hidden]`, `tag + "-posts"` and `[posts]`.

The source loops over a live `HTMLCollection`. The model loops over a
snapshot of the indices instead. This matches the browser because every
reset value still carries the marker class. The loop in `ResetCollection`
has an invariant proving that the live collection equals the snapshot at
every step.

Three details of the code a reader might not expect, all of which the model keeps:

- The id lookup searches the whole document, not only the selector items or
  the post lists. An element with id `tag + "-item"` that does not carry
  `tag__item` is still set to `tag__item tag--active`. The model and its
  "exactly one highlighted" lemmas include that case.
- The code does not check that `tag` is non-empty, so no member requires it.
- With duplicate ids, `getElementById` returns the first element in document
  order. The lemmas talk about that first element, so they need no
  uniqueness assumption.

## Model

| member | source | states |
|---|---|---|
| Dom.CollectionTo | assets/js/main.js:16 | the matches among the first n elements: exactly the indices whose class tokens contain the class, strictly increasing |
| Dom.Collection | assets/js/main.js:16 | `getElementsByClassName(c)`: an index is in the result iff its element carries token c; the result is strictly increasing (document order, no repeats) |
| Dom.FirstFrom | assets/js/main.js:22 | the first index at or after `from` with the id; None iff no such element |
| Dom.ElementById | assets/js/main.js:22 | `getElementById(id)`: the result has the id and no earlier element has it; None (the source's null) iff no element has it |
| Dom.SetClass | assets/js/main.js:18 | `setAttribute('class', v)` replaces the whole token list of that one element and keeps its id; every other element is unchanged |
| Dom.Overwrite | assets/js/main.js:17-19 | after the loop of class writes, an element listed in the indices has class exactly v, any other element is as before, and the length is kept |
| Dom.FirstFromSameIds | assets/js/main.js:22 | the lookup from a position answers the same on two documents with the same ids |
| Dom.ElementByIdSameIds | assets/js/main.js:22 | `getElementById` depends only on ids, so class writes do not change its answer |
| Dom.CollectionToSameMembers | assets/js/main.js:16 | the class lookup answers the same on documents that agree on who carries the class |
| Dom.CollectionOverwrite | assets/js/main.js:16-19 | overwriting collection members with a value that still carries the class leaves the collection unchanged: the live collection neither shrinks nor grows during the loop |
| Dom.Element.SetClassAttribute | assets/js/main.js:18 | `setAttribute('class', value)`: afterwards the class list is exactly value |
| Dom.Document.SetClassAt | assets/js/main.js:18-38 | each of the four class writes (lines 18, 24, 32 and 38) on element k changes that element's class in the view and nothing else |
| Dom.Document.GetElementsByClassName | assets/js/main.js:16 | returns exactly `Collection(View(), c)`: the indices of the elements carrying c, in document order |
| Dom.Document.GetElementById | assets/js/main.js:22 | returns exactly `ElementById(View(), id)`: the first element with the id, or None iff there is none |
| TagFilter.ResetAll | assets/js/main.js:16-19 | after the reset loop, every element that carried the marker has class exactly the reset value, and all other elements and all ids are unchanged |
| TagFilter.SelectById | assets/js/main.js:22-25 | after the lookup, only the first element with the id (if any) has class exactly the selected value; the rest are unchanged |
| TagFilter.ResetThenSelect | assets/js/main.js:16-25 | the outcome of either helper, element by element in terms of the document before the call: the first element with the id gets the selected list, every other carrier of the marker gets the reset list, the rest are untouched; tied to the code's order by `CodeOrderIsResetThenSelect` and characterised by `SetActiveTagOutcome` and `ShowContainerOutcome` |
| TagFilter.Highlighted | assets/js/main.js:24 | what `tag__item tag--active` means on the page: the element carries both tokens; `ClassListFacts` shows only the selected value of the four written ones qualifies |
| TagFilter.Shown | assets/js/main.js:38 | what a visible post list is: it carries `posts` and not `hidden`; `ClassListFacts` shows only the selected value of the four written ones qualifies |
| TagFilter.AfterSetActiveTag | assets/js/main.js:14-26 | the document `setActiveTag(tag)` leaves: the shared shape with `tag__item`, `[tag__item]`, `tag + "-item"`, `[tag__item, tag--active]`; its properties are `SetActiveTagOutcome`, `SetActiveTagUnmatched`, `SetActiveTagIdempotent` and `SetActiveTagSwitch` |
| TagFilter.AfterShowContainer | assets/js/main.js:28-40 | the document `showContainer(tag)` leaves: the shared shape with `posts`, `[posts, hidden]`, `tag + "-posts"`, `[posts]`; its properties are `ShowContainerOutcome`, `ShowContainerIdempotent` and `ShowContainerSwitch` |
| TagFilter.AfterFilter | assets/js/main.js:9-12 | the document `filter(tag)` leaves: `showContainer(tag)` applied to what `setActiveTag(tag)` left; its properties are `FilterAt`, `FilterOutcome`, `FilterIdempotent` and `FilterSwitch` |
| TagFilter.CodeOrderIsResetThenSelect | assets/js/main.js:14-26 | the loop followed by the lookup in the resulting document equals the element-by-element outcome computed from the document before the call |
| TagFilter.ResetCollection | assets/js/main.js:16-19 | the in-place loop leaves `View() == ResetAll(old(View()), marker, reset)`, keeping the live collection equal to the snapshot |
| TagFilter.SetClassById | assets/js/main.js:22-25 | the in-place lookup and write leave `View() == SelectById(old(View()), id, selected)`; on a miss nothing changes |
| TagFilter.ResetAndSelect | assets/js/main.js:14-26 | the in-place reset-then-select leaves `View() == ResetThenSelect(old(View()), …)` |
| TagFilter.SetActiveTag | assets/js/main.js:14-26 | `setActiveTag(tag)` in place leaves `View() == AfterSetActiveTag(old(View()), tag)` |
| TagFilter.ShowContainer | assets/js/main.js:28-40 | `showContainer(tag)` in place leaves `View() == AfterShowContainer(old(View()), tag)` |
| TagFilter.Filter | assets/js/main.js:9-12 | `filter(tag)` leaves exactly `setActiveTag(tag)` followed by `showContainer(tag)` on the resulting document |
| TagFilterProperties.ClassListFacts | assets/js/main.js:18-38 | of the four class values the filter writes, only `tag__item tag--active` counts as highlighted and only `posts` counts as shown; the selector values lack `posts` and the list values lack `tag__item` |
| TagFilterProperties.DistinctTagsDistinctIds | assets/js/main.js:22 | two different tags never build the same id with the same suffix |
| TagFilterProperties.ItemIdIsNotPostsId | assets/js/main.js:36 | an id ending in `-item` never equals one ending in `-posts`, so one element is never both a tag's selector and a tag's list |
| TagFilterProperties.SetActiveTagOutcome | assets/js/main.js:14-26 | former `tag__item` elements other than the id match are exactly `tag__item`; the first `tag + "-item"` element is exactly `tag__item tag--active`; an element is highlighted iff it is that match; all other elements and every id are unchanged |
| TagFilterProperties.SetActiveTagUnmatched | assets/js/main.js:22-23 | with no `tag + "-item"` element, every former `tag__item` element is plain `tag__item` and nothing is highlighted |
| TagFilterProperties.ShowContainerOutcome | assets/js/main.js:28-40 | former `posts` elements other than the id match are exactly `posts hidden`; the first `tag + "-posts"` element is exactly `posts`; an element is shown iff it is that match; all other elements and every id are unchanged |
| TagFilterProperties.FilterElem | assets/js/main.js:9-40 | what `filter` does to one element: the tag's list becomes `posts`, the tag's selector `tag__item tag--active`, other selectors `tag__item`, other lists `posts hidden`, anything else untouched; `FilterAt` proves the whole filter equals it at every index |
| TagFilterProperties.FilterElemMarks | assets/js/main.js:9-40 | for one element after `filter`, it is highlighted iff it is the tag's selector and shown iff it is the tag's list |
| TagFilterProperties.FilterAt | assets/js/main.js:9-40 | after `filter(tag)`, element k is the single-element outcome given by whether it is the first `tag + "-item"` or the first `tag + "-posts"` element (never both) |
| TagFilterProperties.FilterOutcome | assets/js/main.js:9-40 | after `filter(tag)`, ids are kept, each element is exactly that single-element outcome, exactly the tag's selector is highlighted and exactly the tag's list is shown (none when the id is missing) |
| TagFilterProperties.ResetThenSelectIdempotent | assets/js/main.js:14-40 | when both written values keep the marker, reset-then-select applied twice equals applied once |
| TagFilterProperties.SetActiveTagIdempotent | assets/js/main.js:14-26 | `setActiveTag(tag)` twice leaves the same document as once |
| TagFilterProperties.ShowContainerIdempotent | assets/js/main.js:28-40 | `showContainer(tag)` twice leaves the same document as once |
| TagFilterProperties.FilterElemIdempotent | assets/js/main.js:9-40 | the single-element outcome of `filter` applied twice equals applied once |
| TagFilterProperties.FilterIdempotentAt | assets/js/main.js:9-40 | a second `filter(tag)` leaves element k as the first left it |
| TagFilterProperties.FilterIdempotent | assets/js/main.js:9-40 | `filter(tag)` twice leaves the same document as once |
| TagFilterProperties.SetActiveTagSwitch | assets/js/main.js:16-25 | after `setActiveTag(a)` then `setActiveTag(b)` with a ≠ b, a's selector is plain `tag__item` (no `tag--active`) and b's selector is `tag__item tag--active` |
| TagFilterProperties.ShowContainerSwitch | assets/js/main.js:30-39 | after `showContainer(a)` then `showContainer(b)` with a ≠ b, a's list is `posts hidden` and b's list is `posts` |
| TagFilterProperties.FilterElemSwitch | assets/js/main.js:9-40 | single-element outcome of `filter(a)` then `filter(b)`: a's selector and list are reset, and b's are selected |
| TagFilterProperties.FilterSwitchAt | assets/js/main.js:9-40 | `filter(a)` then `filter(b)` with a ≠ b, at one element: a's selector is plain `tag__item`, a's list is hidden, b's selector is highlighted and b's list is `posts` |
| TagFilterProperties.FilterSwitch | assets/js/main.js:9-40 | the same for every element of the document |
| TagFilterProperties.DesignCodeScenario | assets/js/main.js:9-40 | on a page with selectors and lists for `design` (selected) and `code`, `filter("code")` highlights `code-item` and not `design-item`, shows `code-posts` and hides `design-posts` |

## Left out

- The `$(document).ready` handler at assets/js/main.js:1-7 is left out. It
  adds `loaded` to `body` after a 1500 ms timer, and it is timer and
  event-loop plumbing with no logic to state.
- `db/migrate/20160429055805_create_posts.rb` is left out. It declares a
  table schema and has no behaviour.
- The browser is abstracted. These parts are not modelled:
  - the internals of a live `HTMLCollection` (the loop runs over a snapshot,
    and the model proves the snapshot matches the live collection);
  - whitespace parsing of the class attribute (the model uses a list of
    tokens);
  - rendering and the click binding that calls `filter`.
- `getElementById` returns an element index rather than an element object.
  It returns `None` where the source returns `null`.
- Elements are never created or removed, so the element sequence and every
  `id` are fixed fields (`const`). That the count and ids are unchanged
  therefore holds by construction in the methods. On documents as values it
  is stated as `SameIds`.
- A `tag` that is not a string is not modelled. JavaScript would coerce it
  in `tag + '-item'`, but the model takes `tag` as a string.
