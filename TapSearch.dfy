/** The search `handleClick` runs from a tapped element: up the ancestor
    chain first, then through the tapped element's `span`/`div`/`p`
    descendants. Stated here as functions over an abstract document; the
    loops that carry it out are in module WhatsAppTts. */
module TapSearch {
  import opened Wrappers
  import opened JsText
  import opened MessageText

  type Id = nat

  /** What the handler reads of an element: its tag name (lower case), its
      `innerText` and `textContent`, its `parentElement`, and every element
      below it in document order. */
  datatype Element = Element(
    tag: string,
    innerText: string,
    textContent: string,
    parent: Option<Id>,
    descendants: seq<Id>)

  type Document = map<Id, Element>

  /** Every element a document refers to is in it. */
  predicate Closed(doc: Document) {
    forall id {:trigger doc[id]} | id in doc ::
      && (doc[id].parent.Some? ==> doc[id].parent.value in doc)
      && (forall d | d in doc[id].descendants :: d in doc)
  }

  /** At most this many elements are examined on the way up. */
  const MAX_HOPS: nat := 10
  /** Upper length bounds (exclusive) for an ancestor's and a descendant's text. */
  const ANCESTOR_LIMIT: nat := 1000
  const DESCENDANT_LIMIT: nat := 500
  /** Lower length bound (exclusive) for both searches. */
  const MIN_LENGTH: nat := 3

  /** `innerText || textContent || ''`: an empty `innerText` falls back. */
  function RawText(e: Element): string {
    if e.innerText != "" then e.innerText else e.textContent
  }

  /** The cleaned text of an element, as `extractMessageText` returns it. */
  function TextOf(doc: Document, id: Id): string
    requires id in doc
  {
    CleanText(RawText(doc[id]))
  }

  /** The length window: strictly between `MIN_LENGTH` and `limit` UTF-16
      code units. */
  predicate Fits(text: string, limit: nat) {
    MIN_LENGTH < JsLength(text) < limit
  }

  /** The elements the upward walk visits from `id`: `id` itself, then each
      `parentElement`, stopping at the root or after `n` elements. */
  function Ancestry(doc: Document, id: Id, n: nat): (r: seq<Id>)
    requires Closed(doc) && id in doc
    ensures forall x | x in r :: x in doc
    decreases n
  {
    if n == 0 then []
    else match doc[id].parent
      case None => [id]
      case Some(p) => [id] + Ancestry(doc, p, n - 1)
  }

  /** Index of the first element of `ids` whose text fits the window, or
      `|ids|` when none does. */
  function FirstFit(doc: Document, ids: seq<Id>, limit: nat): (i: nat)
    requires forall x | x in ids :: x in doc
    ensures i <= |ids|
    decreases |ids|
  {
    if ids == [] then 0
    else if Fits(TextOf(doc, ids[0]), limit) then 0
    else 1 + FirstFit(doc, ids[1..], limit)
  }

  /** `span`, `div` and `p`: the selector `'span, div, p'`. */
  predicate IsTextContainer(e: Element) {
    e.tag == "span" || e.tag == "div" || e.tag == "p"
  }

  /** `querySelectorAll('span, div, p')` over the descendants `ids`. */
  function TextContainers(doc: Document, ids: seq<Id>): (r: seq<Id>)
    requires forall x | x in ids :: x in doc
    ensures forall x | x in r :: x in doc
    decreases |ids|
  {
    if ids == [] then []
    else if IsTextContainer(doc[ids[0]]) then [ids[0]] + TextContainers(doc, ids[1..])
    else TextContainers(doc, ids[1..])
  }

  /** Where the text to speak was found. */
  datatype Found =
    | InAncestor(id: Id, text: string)
    | InDescendant(id: Id, text: string)
    | NotFound

  /** The upward walk: the nearest examined element whose text fits. */
  function AncestorSearch(doc: Document, target: Id): Found
    requires Closed(doc) && target in doc
  {
    var chain := Chain(doc, target);
    var i := FirstFit(doc, chain, ANCESTOR_LIMIT);
    if i < |chain| then InAncestor(chain[i], TextOf(doc, chain[i])) else NotFound
  }

  /** The fallback: the first text container below the target whose text fits. */
  function DescendantSearch(doc: Document, target: Id): Found
    requires Closed(doc) && target in doc
  {
    var children := TextContainers(doc, doc[target].descendants);
    var j := FirstFit(doc, children, DESCENDANT_LIMIT);
    if j < |children| then InDescendant(children[j], TextOf(doc, children[j])) else NotFound
  }

  /** The whole search: ancestors first, descendants only when no ancestor
      qualified. */
  function Resolve(doc: Document, target: Id): Found
    requires Closed(doc) && target in doc
  {
    var up := AncestorSearch(doc, target);
    if up.InAncestor? then up else DescendantSearch(doc, target)
  }

  // ------------------------------------------------------------- lemmas

  /** The walk visits the target, then successive parents; it holds at most
      `n` elements, and stops short of `n` only at an element without a
      parent. */
  lemma {:induction false} AncestryChain(doc: Document, id: Id, n: nat)
    requires Closed(doc) && id in doc
    ensures var r := Ancestry(doc, id, n);
      && |r| <= n
      && (n > 0 ==> |r| > 0 && r[0] == id)
      && (forall i | 0 <= i < |r| - 1 :: doc[r[i]].parent == Some(r[i + 1]))
      && (0 < |r| < n ==> doc[r[|r| - 1]].parent.None?)
    decreases n
  {
    if n > 0 {
      match doc[id].parent
      case None =>
      case Some(p) =>
        AncestryChain(doc, p, n - 1);
        var r := Ancestry(doc, id, n);
        var q := Ancestry(doc, p, n - 1);
        assert r == [id] + q;
        forall i | 0 <= i < |r| - 1
          ensures doc[r[i]].parent == Some(r[i + 1])
        {
          if i > 0 {
            assert r[i] == q[i - 1] && r[i + 1] == q[i];
          }
        }
    }
  }

  /** One step along a walk: when `chain` from position `at` on is the walk
      from `id`, then `id` is at `at` and the rest is the walk from its
      parent, or nothing at the root. */
  lemma AncestryTail(doc: Document, chain: seq<Id>, at: nat, id: Id, n: nat)
    requires Closed(doc) && id in doc && 0 < n && at <= |chain|
    requires chain[at..] == Ancestry(doc, id, n)
    ensures at < |chain| && chain[at] == id
    ensures doc[id].parent.None? ==> at + 1 == |chain|
    ensures doc[id].parent.Some? ==> chain[at + 1..] == Ancestry(doc, doc[id].parent.value, n - 1)
  {
    assert chain[at..][0] == chain[at];
    assert chain[at + 1..] == chain[at..][1..];
  }

  /** `FirstFit` finds the first fitting element: every element before it
      fails the window, and it fits unless it is past the end. */
  lemma {:induction false} FirstFitFirst(doc: Document, ids: seq<Id>, limit: nat)
    requires forall x | x in ids :: x in doc
    ensures var i := FirstFit(doc, ids, limit);
      && (i < |ids| ==> Fits(TextOf(doc, ids[i]), limit))
      && (forall k | 0 <= k < i :: !Fits(TextOf(doc, ids[k]), limit))
    decreases |ids|
  {
    if ids != [] && !Fits(TextOf(doc, ids[0]), limit) {
      FirstFitFirst(doc, ids[1..], limit);
      var i := FirstFit(doc, ids, limit);
      forall k | 0 <= k < i
        ensures !Fits(TextOf(doc, ids[k]), limit)
      {
        if k > 0 {
          assert ids[k] == ids[1..][k - 1];
        }
      }
    }
  }

  /** The fitting index is unique in the sense that matters: an index whose
      element fits, with no fitting element before it, is `FirstFit`. */
  lemma FirstFitExact(doc: Document, ids: seq<Id>, limit: nat, i: nat)
    requires forall x | x in ids :: x in doc
    requires i <= |ids|
    requires i < |ids| ==> Fits(TextOf(doc, ids[i]), limit)
    requires forall k | 0 <= k < i :: !Fits(TextOf(doc, ids[k]), limit)
    ensures FirstFit(doc, ids, limit) == i
  {
    FirstFitFirst(doc, ids, limit);
  }

  /** Index of the first element of `ids` that is a text container and
      whose text fits the window, or `|ids|` when there is none. */
  function FirstContainerFit(doc: Document, ids: seq<Id>, limit: nat): (k: nat)
    requires forall x | x in ids :: x in doc
    ensures k <= |ids|
    decreases |ids|
  {
    if ids == [] then 0
    else if IsTextContainer(doc[ids[0]]) && Fits(TextOf(doc, ids[0]), limit) then 0
    else 1 + FirstContainerFit(doc, ids[1..], limit)
  }

  /** `FirstContainerFit` is the first container that fits: every earlier
      element is no container or does not fit. */
  lemma {:induction false} FirstContainerFitFirst(doc: Document, ids: seq<Id>, limit: nat)
    requires forall x | x in ids :: x in doc
    ensures var k := FirstContainerFit(doc, ids, limit);
      && (k < |ids| ==> IsTextContainer(doc[ids[k]]) && Fits(TextOf(doc, ids[k]), limit))
      && (forall i | 0 <= i < k :: IsTextContainer(doc[ids[i]]) ==> !Fits(TextOf(doc, ids[i]), limit))
    decreases |ids|
  {
    if ids != [] && !(IsTextContainer(doc[ids[0]]) && Fits(TextOf(doc, ids[0]), limit)) {
      FirstContainerFitFirst(doc, ids[1..], limit);
      var k := FirstContainerFit(doc, ids, limit);
      forall i | 0 <= i < k
        ensures IsTextContainer(doc[ids[i]]) ==> !Fits(TextOf(doc, ids[i]), limit)
      {
        if i > 0 {
          assert ids[i] == ids[1..][i - 1];
        }
      }
    }
  }

  /** Scanning the `span`/`div`/`p` list in order finds the same element as
      scanning all descendants in document order for the first container
      that fits. */
  lemma {:induction false} ContainersInOrder(doc: Document, ids: seq<Id>, limit: nat)
    requires forall x | x in ids :: x in doc
    ensures var c := TextContainers(doc, ids);
      var j := FirstFit(doc, c, limit);
      var k := FirstContainerFit(doc, ids, limit);
      && (j < |c| <==> k < |ids|)
      && (j < |c| ==> c[j] == ids[k])
    decreases |ids|
  {
    if ids != [] {
      ContainersInOrder(doc, ids[1..], limit);
      var c' := TextContainers(doc, ids[1..]);
      if IsTextContainer(doc[ids[0]]) {
        var c := TextContainers(doc, ids);
        assert c == [ids[0]] + c' && c[1..] == c';
      }
    }
  }

  /** The elements the walk from `target` may examine. */
  function Chain(doc: Document, target: Id): seq<Id>
    requires Closed(doc) && target in doc
  {
    Ancestry(doc, target, MAX_HOPS)
  }

  /** The walk finds an element exactly when some examined element's text
      fits. */
  lemma ResolveAncestorWhen(doc: Document, target: Id)
    requires Closed(doc) && target in doc
    ensures Resolve(doc, target).InAncestor? <==>
      exists i | 0 <= i < |Chain(doc, target)| :: Fits(TextOf(doc, Chain(doc, target)[i]), ANCESTOR_LIMIT)
  {
    FirstFitFirst(doc, Chain(doc, target), ANCESTOR_LIMIT);
  }

  /** What the walk finds is the nearest examined element whose text fits,
      together with that text. */
  lemma ResolveAncestorNearest(doc: Document, target: Id)
    requires Closed(doc) && target in doc
    ensures Resolve(doc, target).InAncestor? ==>
      && Resolve(doc, target).text == TextOf(doc, Resolve(doc, target).id)
      && Fits(Resolve(doc, target).text, ANCESTOR_LIMIT)
      && exists i | 0 <= i < |Chain(doc, target)| ::
           && Chain(doc, target)[i] == Resolve(doc, target).id
           && forall k | 0 <= k < i :: !Fits(TextOf(doc, Chain(doc, target)[k]), ANCESTOR_LIMIT)
  {
    var chain := Chain(doc, target);
    FirstFitFirst(doc, chain, ANCESTOR_LIMIT);
    var i := FirstFit(doc, chain, ANCESTOR_LIMIT);
    if i < |chain| {
      assert chain[i] == Resolve(doc, target).id;
    }
  }

  /** The descendant scan runs only when no examined ancestor fits; it
      finds something exactly when some `span`/`div`/`p` below the target
      has text that fits the smaller window. */
  lemma ResolveDescendantWhen(doc: Document, target: Id)
    requires Closed(doc) && target in doc
    ensures Resolve(doc, target).InDescendant? <==>
      && (forall i | 0 <= i < |Chain(doc, target)| :: !Fits(TextOf(doc, Chain(doc, target)[i]), ANCESTOR_LIMIT))
      && exists k | 0 <= k < |doc[target].descendants| ::
           && IsTextContainer(doc[doc[target].descendants[k]])
           && Fits(TextOf(doc, doc[target].descendants[k]), DESCENDANT_LIMIT)
  {
    var below := doc[target].descendants;
    FirstFitFirst(doc, Chain(doc, target), ANCESTOR_LIMIT);
    ContainersInOrder(doc, below, DESCENDANT_LIMIT);
    FirstContainerFitFirst(doc, below, DESCENDANT_LIMIT);
  }

  /** What the scan finds is the first text container in document order
      whose text fits, together with that text. */
  lemma ResolveDescendantFirst(doc: Document, target: Id)
    requires Closed(doc) && target in doc
    ensures Resolve(doc, target).InDescendant? ==>
      && Resolve(doc, target).text == TextOf(doc, Resolve(doc, target).id)
      && Fits(Resolve(doc, target).text, DESCENDANT_LIMIT)
      && exists k | 0 <= k < |doc[target].descendants| ::
           && doc[target].descendants[k] == Resolve(doc, target).id
           && IsTextContainer(doc[doc[target].descendants[k]])
           && forall k' | 0 <= k' < k ::
                IsTextContainer(doc[doc[target].descendants[k']]) ==>
                  !Fits(TextOf(doc, doc[target].descendants[k']), DESCENDANT_LIMIT)
  {
    var below := doc[target].descendants;
    ContainersInOrder(doc, below, DESCENDANT_LIMIT);
    FirstContainerFitFirst(doc, below, DESCENDANT_LIMIT);
    var k := FirstContainerFit(doc, below, DESCENDANT_LIMIT);
    if Resolve(doc, target).InDescendant? {
      assert below[k] == Resolve(doc, target).id;
    }
  }

  /** Nothing is found exactly when no examined ancestor and no text
      container below the target fits; whatever is found is long enough to
      pass the speech guard. */
  lemma ResolveNothing(doc: Document, target: Id)
    requires Closed(doc) && target in doc
    ensures Resolve(doc, target).NotFound? <==>
      && (forall i | 0 <= i < |Chain(doc, target)| :: !Fits(TextOf(doc, Chain(doc, target)[i]), ANCESTOR_LIMIT))
      && (forall k | 0 <= k < |doc[target].descendants| ::
            IsTextContainer(doc[doc[target].descendants[k]]) ==>
              !Fits(TextOf(doc, doc[target].descendants[k]), DESCENDANT_LIMIT))
    ensures !Resolve(doc, target).NotFound? ==> JsLength(Resolve(doc, target).text) > MIN_LENGTH
  {
    ResolveAncestorWhen(doc, target);
    ResolveAncestorNearest(doc, target);
    ResolveDescendantWhen(doc, target);
    ResolveDescendantFirst(doc, target);
  }
}
