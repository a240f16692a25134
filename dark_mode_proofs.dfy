/** Properties of the dark-mode engine's state transitions (module DarkMode). */
module DarkModeProofs {
  import opened Wrappers
  import opened Color
  import opened ColorProofs
  import opened DarkMode

  /** Recolouring never changes what decides protection. */
  lemma RecolorKeepsProtection(hue: HuePath, e: Element)
    ensures Protected(Recolor(hue, e)) == Protected(e)
    ensures Recolor(hue, e).marked
  {
  }

  /** Whether processing `ids` in activation `a` recolours element `x`. */
  predicate Recolors(a: Activation, ids: seq<ElementId>, x: ElementId)
    requires x in a.doc
  {
    x in ids && x !in a.processed && !Protected(a.doc[x])
  }

  /** One `processElement` call: only the element itself can change, and
      only when it is neither processed nor protected. */
  lemma ProcessEffect(hue: HuePath, a: Activation, id: ElementId)
    requires id in a.doc
    ensures var r := Process(hue, a, id);
      r.doc.Keys == a.doc.Keys
      && (forall x :: x in a.doc && x != id ==> r.doc[x] == a.doc[x])
      && r.doc[id] == (if id !in a.processed && !Protected(a.doc[id]) then Recolor(hue, a.doc[id]) else a.doc[id])
      && r.processed == a.processed + (if Protected(a.doc[id]) then {} else {id})
  {
  }

  /** The effect of processing a sequence of elements: an element is
      recoloured exactly once if it occurs in the sequence, was not processed
      before in this activation and is not protected; every other element is
      unchanged; the processed set grows by exactly the unprotected elements
      of the sequence. */
  lemma {:induction false} ProcessAllEffect(hue: HuePath, a: Activation, ids: seq<ElementId>)
    requires Present(a.doc, ids)
    ensures forall x :: x in a.doc ==>
      ProcessAll(hue, a, ids).doc[x] == if Recolors(a, ids, x) then Recolor(hue, a.doc[x]) else a.doc[x]
    ensures ProcessAll(hue, a, ids).processed
            == a.processed + set x | x in ids && x in a.doc && !Protected(a.doc[x])
  {
    if ids != [] {
      var init := ids[..|ids| - 1];
      var last := ids[|ids| - 1];
      assert Present(a.doc, init);
      ProcessAllEffect(hue, a, init);
      var before := ProcessAll(hue, a, init);
      var after := ProcessAll(hue, a, ids);
      assert after == Process(hue, before, last);
      ProcessEffect(hue, before, last);
      RecolorKeepsProtection(hue, a.doc[last]);
      assert Protected(before.doc[last]) == Protected(a.doc[last]);
      assert forall x :: x in ids <==> x in init || x == last by {
        assert ids == init + [last];
      }
      forall x | x in a.doc
        ensures after.doc[x] == if Recolors(a, ids, x) then Recolor(hue, a.doc[x]) else a.doc[x]
      {
        if x != last {
          assert after.doc[x] == before.doc[x];
        }
      }
      assert after.processed == a.processed + set x | x in ids && x in a.doc && !Protected(a.doc[x]);
    }
  }

  /** Processing a sequence twice in one activation changes nothing the
      second time: each element is recoloured at most once. */
  lemma ProcessAllTwice(hue: HuePath, a: Activation, ids: seq<ElementId>)
    requires Present(a.doc, ids)
    ensures ProcessAll(hue, ProcessAll(hue, a, ids), ids) == ProcessAll(hue, a, ids)
  {
    var b := ProcessAll(hue, a, ids);
    ProcessAllEffect(hue, a, ids);
    ProcessAllEffect(hue, b, ids);
    var c := ProcessAll(hue, b, ids);
    forall x | x in b.doc ensures c.doc[x] == b.doc[x] {
      if x in ids && x !in b.processed {
        RecolorKeepsProtection(hue, a.doc[x]);
      }
    }
    forall x | x in ids && x in b.doc && !Protected(b.doc[x]) ensures x in b.processed {
      RecolorKeepsProtection(hue, a.doc[x]);
    }
  }

  /** Processing a concatenation processes the first part, then the second. */
  lemma {:induction false} ProcessAllAppend(hue: HuePath, a: Activation, xs: seq<ElementId>, ys: seq<ElementId>)
    requires Present(a.doc, xs + ys)
    ensures Present(a.doc, xs) && Present(ProcessAll(hue, a, xs).doc, ys)
    ensures ProcessAll(hue, a, xs + ys) == ProcessAll(hue, ProcessAll(hue, a, xs), ys)
  {
    assert forall k :: 0 <= k < |xs| ==> xs[k] == (xs + ys)[k];
    assert forall k :: 0 <= k < |ys| ==> ys[k] == (xs + ys)[|xs| + k];
    if ys == [] {
      assert xs + ys == xs;
    } else {
      var init := ys[..|ys| - 1];
      var last := ys[|ys| - 1];
      assert (xs + ys)[..|xs + ys| - 1] == xs + init;
      assert (xs + ys)[|xs + ys| - 1] == last;
      assert Present(a.doc, xs + init);
      ProcessAllAppend(hue, a, xs, init);
      assert ProcessAll(hue, a, xs + ys) == Process(hue, ProcessAll(hue, a, xs + init), last);
    }
  }

  /** The identities of concatenated node lists are concatenated. */
  lemma {:induction false} NodesIdsAppend(xs: seq<AddedNode>, ys: seq<AddedNode>)
    ensures NodesIds(xs + ys) == NodesIds(xs) + NodesIds(ys)
  {
    if xs == [] {
      assert xs + ys == ys;
    } else {
      assert (xs + ys)[1..] == xs[1..] + ys;
      NodesIdsAppend(xs[1..], ys);
    }
  }

  /** The identities of concatenated batches are concatenated. */
  lemma {:induction false} BatchIdsAppend(xs: seq<seq<AddedNode>>, ys: seq<seq<AddedNode>>)
    ensures BatchIds(xs + ys) == BatchIds(xs) + BatchIds(ys)
  {
    if xs == [] {
      assert xs + ys == ys;
    } else {
      assert (xs + ys)[1..] == xs[1..] + ys;
      BatchIdsAppend(xs[1..], ys);
    }
  }

  lemma NodesIdsSingle(node: AddedNode)
    ensures NodesIds([node]) == NodeIds(node)
  {
    assert [node][1..] == [];
  }

  lemma BatchIdsSingle(nodes: seq<AddedNode>)
    ensures BatchIds([nodes]) == NodesIds(nodes)
  {
    assert [nodes][1..] == [];
  }

  /** The identities of some nodes, split around node `n`. */
  lemma NodesSplit(nodes: seq<AddedNode>, n: nat)
    requires n < |nodes|
    ensures NodesIds(nodes) == NodesIds(nodes[..n]) + NodeIds(nodes[n]) + NodesIds(nodes[n + 1..])
  {
    var pre, rest := nodes[..n], nodes[n..];
    assert nodes == pre + rest;
    NodesIdsAppend(pre, rest);
    assert rest[0] == nodes[n] && rest[1..] == nodes[n + 1..];
    assert NodesIds(rest) == NodeIds(nodes[n]) + NodesIds(nodes[n + 1..]);
  }

  /** The identities of the first `n + 1` nodes extend those of the first
      `n` by those of node `n`. */
  lemma NodesStep(nodes: seq<AddedNode>, n: nat)
    requires n < |nodes|
    ensures NodesIds(nodes[..n + 1]) == NodesIds(nodes[..n]) + NodeIds(nodes[n])
  {
    var pre := nodes[..n];
    assert nodes[..n + 1] == pre + [nodes[n]];
    NodesIdsAppend(pre, [nodes[n]]);
    NodesIdsSingle(nodes[n]);
  }

  /** The identities of a batch, split around record `m`. */
  lemma BatchSplit(batch: seq<seq<AddedNode>>, m: nat)
    requires m < |batch|
    ensures BatchIds(batch) == BatchIds(batch[..m]) + NodesIds(batch[m]) + BatchIds(batch[m + 1..])
  {
    var pre, rest := batch[..m], batch[m..];
    assert batch == pre + rest;
    BatchIdsAppend(pre, rest);
    assert rest[0] == batch[m] && rest[1..] == batch[m + 1..];
    assert BatchIds(rest) == NodesIds(batch[m]) + BatchIds(batch[m + 1..]);
  }

  /** The identities of the first `m + 1` records extend those of the first
      `m` by those of record `m`. */
  lemma BatchStep(batch: seq<seq<AddedNode>>, m: nat)
    requires m < |batch|
    ensures BatchIds(batch[..m + 1]) == BatchIds(batch[..m]) + NodesIds(batch[m])
  {
    var pre := batch[..m];
    assert batch[..m + 1] == pre + [batch[m]];
    BatchIdsAppend(pre, [batch[m]]);
    BatchIdsSingle(batch[m]);
  }

  /** Presence of a concatenation gives presence of its first two parts and
      of its middle one. */
  lemma PresentParts(doc: map<ElementId, Element>, xs: seq<ElementId>, ys: seq<ElementId>, zs: seq<ElementId>)
    requires Present(doc, xs + ys + zs)
    ensures Present(doc, xs + ys) && Present(doc, ys)
  {
    assert forall k :: 0 <= k < |xs + ys| ==> (xs + ys)[k] == (xs + ys + zs)[k];
    assert forall k :: 0 <= k < |ys| ==> ys[k] == (xs + ys + zs)[|xs| + k];
  }

  // ---------------------------------------------------------------------
  // removeDarkMode

  /** After `removeDarkMode` the style element is gone (there was at most
      one), the observer is off, no element carries the marker, every element
      that carried it has no inline colours, and every other element is
      unchanged. */
  lemma RemoveEffect(s: EngineState)
    requires |s.styles| <= 1
    ensures var r := RemoveState(s);
      r.styles == [] && !r.observing && r.doc.Keys == s.doc.Keys
      && (forall x :: x in r.doc ==> !r.doc[x].marked)
      && (forall x :: x in s.doc && s.doc[x].marked ==>
            r.doc[x].inlineBackground.None? && r.doc[x].inlineColor.None?)
      && (forall x :: x in s.doc && !s.doc[x].marked ==> r.doc[x] == s.doc[x])
    ensures forall x :: x in s.doc && s.doc[x].marked ==>
      RemoveState(s).doc[x] == s.doc[x].(marked := false, inlineBackground := None, inlineColor := None)
  {
  }

  /** `removeDarkMode` is idempotent. */
  lemma RemoveIdempotent(s: EngineState)
    requires |s.styles| <= 1
    ensures RemoveState(RemoveState(s)) == RemoveState(s)
  {
    var r := RemoveState(s);
    assert ClearAll(r.doc) == r.doc;
  }

  // ---------------------------------------------------------------------
  // applyDarkMode

  /** Disabled (or master switch off): the end state is the state after
      `removeDarkMode`, with no style element, no observer and no marked
      element. */
  lemma ApplyDisabled(hue: HuePath, s: EngineState, enabled: bool, brightness: int, masterEnabled: bool,
                      body: seq<ElementId>)
    requires |s.styles| <= 1 && Present(s.doc, body)
    requires !enabled || !masterEnabled
    ensures var r := ApplyState(hue, s, enabled, brightness, masterEnabled, body);
      r.styles == [] && !r.observing && forall x :: x in r.doc ==> !r.doc[x].marked
    ensures ApplyState(hue, s, enabled, brightness, masterEnabled, body) == RemoveState(s)
  {
  }

  /** The body processed in a fresh activation after the removal: each
      unprotected body element is recoloured from its cleared state, every
      other element is only cleared, and the processed set is exactly the
      unprotected body elements. */
  lemma FreshProcessEffect(hue: HuePath, doc: map<ElementId, Element>, body: seq<ElementId>)
    requires Present(doc, body)
    ensures Present(ClearAll(doc), body)
    ensures ProcessAll(hue, Activation(ClearAll(doc), {}), body).doc.Keys == doc.Keys
    ensures ProcessAll(hue, Activation(ClearAll(doc), {}), body).processed
            == set x | x in body && x in doc && !Protected(doc[x])
    ensures forall x :: x in doc ==>
              ProcessAll(hue, Activation(ClearAll(doc), {}), body).doc[x]
              == if x in body && !Protected(doc[x]) then Recolor(hue, Clear(doc[x])) else Clear(doc[x])
  {
    var c := ClearAll(doc);
    assert forall x :: x in c ==> c[x] == Clear(doc[x]) && Protected(c[x]) == Protected(doc[x]);
    ProcessAllEffect(hue, Activation(c, {}), body);
  }

  /** Enabled: exactly one style element with this brightness, the observer
      installed, and every unprotected element of the body's descendants
      recoloured from its cleared state; every element outside them (the body
      itself among them) is only cleared. */
  lemma ApplyEnabled(hue: HuePath, s: EngineState, brightness: int, body: seq<ElementId>)
    requires |s.styles| <= 1 && Present(s.doc, body)
    ensures var r := ApplyState(hue, s, true, brightness, true, body);
      r.styles == [brightness] && r.observing && r.doc.Keys == s.doc.Keys
      && r.processed == set x | x in body && x in s.doc && !Protected(s.doc[x])
      && (forall x :: x in s.doc ==>
            r.doc[x] == if x in body && !Protected(s.doc[x]) then Recolor(hue, Clear(s.doc[x]))
                        else Clear(s.doc[x]))
      && Consistent(r)
  {
    FreshProcessEffect(hue, s.doc, body);
    var r := ApplyState(hue, s, true, brightness, true, body);
    assert r.doc == ProcessAll(hue, Activation(ClearAll(s.doc), {}), body).doc;
    forall x | x in r.processed ensures x in r.doc && r.doc[x].marked {
      RecolorKeepsProtection(hue, Clear(s.doc[x]));
    }
  }

  /** A state with no style element, no observer and no marker. */
  predicate Inactive(s: EngineState) {
    s.styles == [] && !s.observing && forall x :: x in s.doc ==> !s.doc[x].marked
  }

  /** Applying starts from the inactive state `removeDarkMode` leaves, so the
      result depends only on that state: applying after a removal is the
      same as applying directly. */
  lemma ApplyAfterRemove(hue: HuePath, s: EngineState, enabled: bool, brightness: int, masterEnabled: bool,
                         body: seq<ElementId>)
    requires |s.styles| <= 1 && Present(s.doc, body)
    ensures Inactive(RemoveState(s))
    ensures ApplyState(hue, RemoveState(s), enabled, brightness, masterEnabled, body)
            == ApplyState(hue, s, enabled, brightness, masterEnabled, body)
  {
    RemoveIdempotent(s);
  }

  // ---------------------------------------------------------------------
  // The observer

  /** Each unprotected element of a batch, added or descendant, that this
      activation has not processed yet is recoloured; every other element is
      left unchanged; the processed set grows by the batch's unprotected
      elements, each of which then carries the marker. */
  lemma AddedEffect(hue: HuePath, s: EngineState, batch: seq<seq<AddedNode>>)
    requires Present(s.doc, BatchIds(batch)) && s.observing && Consistent(s)
    ensures var r := AddedState(hue, s, batch);
      r.doc.Keys == s.doc.Keys
      && (forall x :: x in s.doc ==>
            r.doc[x] == if x in BatchIds(batch) && x !in s.processed && !Protected(s.doc[x])
                        then Recolor(hue, s.doc[x]) else s.doc[x])
      && r.processed == s.processed + set x | x in BatchIds(batch) && x in s.doc && !Protected(s.doc[x])
      && (forall x :: x in BatchIds(batch) && x in s.doc && !Protected(s.doc[x]) ==> r.doc[x].marked)
  {
    ProcessAllEffect(hue, Activation(s.doc, s.processed), BatchIds(batch));
    forall x | x in BatchIds(batch) && x in s.doc && !Protected(s.doc[x])
      ensures AddedState(hue, s, batch).doc[x].marked
    {
      RecolorKeepsProtection(hue, s.doc[x]);
    }
  }

  /** A batch delivered twice is processed once. */
  lemma AddedTwice(hue: HuePath, s: EngineState, batch: seq<seq<AddedNode>>)
    requires Present(s.doc, BatchIds(batch))
    ensures Present(AddedState(hue, s, batch).doc, BatchIds(batch))
    ensures AddedState(hue, AddedState(hue, s, batch), batch) == AddedState(hue, s, batch)
  {
    if s.observing {
      ProcessAllTwice(hue, Activation(s.doc, s.processed), BatchIds(batch));
    }
  }

  /** The observer of an inactive engine does nothing. */
  lemma AddedWhenInactive(hue: HuePath, s: EngineState, batch: seq<seq<AddedNode>>)
    requires Present(s.doc, BatchIds(batch)) && !s.observing
    ensures AddedState(hue, s, batch) == s
  {
  }

  // ---------------------------------------------------------------------
  // Exact cleanup

  /** No marker and no inline colour. */
  predicate Pristine(e: Element) {
    !e.marked && e.inlineBackground.None? && e.inlineColor.None?
  }

  /** Every element of `doc` comes back to the pristine element of `page`
      when cleared. */
  predicate RestoresTo(doc: map<ElementId, Element>, page: map<ElementId, Element>) {
    doc.Keys == page.Keys && forall x :: x in doc ==> Pristine(page[x]) && Clear(doc[x]) == page[x]
  }

  lemma ClearRecolor(hue: HuePath, e: Element, p: Element)
    requires Pristine(p) && Clear(e) == p
    ensures Clear(Recolor(hue, e)) == p
  {
  }

  lemma {:induction false} ProcessAllRestores(hue: HuePath, a: Activation, ids: seq<ElementId>,
                                              page: map<ElementId, Element>)
    requires Present(a.doc, ids) && RestoresTo(a.doc, page)
    ensures RestoresTo(ProcessAll(hue, a, ids).doc, page)
  {
    ProcessAllEffect(hue, a, ids);
    forall x | x in a.doc ensures Clear(ProcessAll(hue, a, ids).doc[x]) == page[x] {
      ClearRecolor(hue, a.doc[x], page[x]);
    }
  }

  /** Applying keeps every element restorable to the pristine page. */
  lemma ApplyRestores(hue: HuePath, s: EngineState, enabled: bool, brightness: int, masterEnabled: bool,
                      body: seq<ElementId>, page: map<ElementId, Element>)
    requires Present(s.doc, body) && RestoresTo(s.doc, page)
    ensures RestoresTo(ApplyState(hue, s, enabled, brightness, masterEnabled, body).doc, page)
  {
    var r := RemoveState(s);
    assert RestoresTo(r.doc, page);
    if enabled && masterEnabled {
      ProcessAllRestores(hue, Activation(r.doc, {}), body, page);
    }
  }

  /** The observer keeps every element restorable to the pristine page. */
  lemma AddedRestores(hue: HuePath, s: EngineState, batch: seq<seq<AddedNode>>, page: map<ElementId, Element>)
    requires Present(s.doc, BatchIds(batch)) && RestoresTo(s.doc, page)
    ensures RestoresTo(AddedState(hue, s, batch).doc, page)
  {
    if s.observing {
      ProcessAllRestores(hue, Activation(s.doc, s.processed), BatchIds(batch), page);
    }
  }

  /** After any sequence of applications and observer callbacks on a page
      without markers or inline colours, `removeDarkMode` gives back exactly
      that page, with no style element and no observer. */
  lemma RemoveRestores(s: EngineState, page: map<ElementId, Element>)
    requires RestoresTo(s.doc, page) && |s.styles| <= 1
    ensures RemoveState(s).doc == page && RemoveState(s).styles == [] && !RemoveState(s).observing
  {
  }

  // ---------------------------------------------------------------------
  // Greys, the alpha threshold and repeated activation

  /** A computed grey `v` is written back as the grey `255 - v` with its
      alpha when that alpha is above 0.1, and left alone otherwise. */
  lemma OverwriteGrey(hue: HuePath, computed: string, v: nat, alpha: JsNumber)
    requires ParseColor(computed) == Some(ParsedColor(v, v, v, alpha))
    ensures Overwrite(hue, computed)
            == if Visible(alpha) then Some(Recolored(255 - v, 255 - v, 255 - v, alpha.value)) else None
  {
    InvertGrey(hue, v);
  }

  /** An opaque grey `v` is written back as the opaque grey `255 - v`. */
  lemma OverwriteOpaqueGrey(hue: HuePath, computed: string, v: nat)
    requires ParseColor(computed) == Some(ParsedColor(v, v, v, Finite(1.0)))
    ensures Overwrite(hue, computed) == Some(Recolored(255 - v, 255 - v, 255 - v, 1.0))
  {
    OverwriteGrey(hue, computed, v, Finite(1.0));
  }

  // In the examples below the computed colour is a parameter equal to the
  // literal: with the literal in the postcondition, the verifier unfolds
  // `ParseColor` on it eagerly and runs out of resource.

  /** An opaque white background becomes black. */
  lemma WhiteBackgroundScenario(hue: HuePath, computed: string)
    requires computed == "rgb(255, 255, 255)"
    ensures Overwrite(hue, computed) == Some(Recolored(0, 0, 0, 1.0))
  {
    ParseWhite();
    OverwriteOpaqueGrey(hue, computed, 255);
  }

  /** Alpha 0.05 is below the threshold: the colour is left alone. */
  lemma NearlyTransparentScenario(hue: HuePath, computed: string)
    requires computed == "rgba(0, 0, 0, 0.05)"
    ensures Overwrite(hue, computed) == None
  {
    ParseAlphaHundredths();
    OverwriteGrey(hue, computed, 0, Finite(0.05));
  }

  /** The threshold is strict: alpha exactly 0.1 is left alone. */
  lemma ThresholdScenario(hue: HuePath, computed: string)
    requires computed == "rgba(0, 0, 0, 0.1)"
    ensures Overwrite(hue, computed) == None
  {
    ParseAlphaTenth();
    OverwriteGrey(hue, computed, 0, Finite(0.1));
  }

  /** Alpha 0.5 is inverted and kept. */
  lemma HalfTransparentScenario(hue: HuePath, computed: string)
    requires computed == "rgba(0, 0, 0, 0.5)"
    ensures Overwrite(hue, computed) == Some(Recolored(255, 255, 255, 0.5))
  {
    ParseAlphaHalf();
    OverwriteGrey(hue, computed, 0, Finite(0.5));
  }

  /** A transparent computed background is left alone. */
  lemma TransparentScenario(hue: HuePath, computed: string)
    requires computed == "rgba(0, 0, 0, 0)"
    ensures Overwrite(hue, computed) == None
  {
    ParseTransparent();
    OverwriteGrey(hue, computed, 0, Finite(0.0));
  }

  /** On a page that does not set inline colours itself, applying twice with
      the same settings gives the state of applying once. */
  lemma ApplyIdempotent(hue: HuePath, s: EngineState, enabled: bool, brightness: int, masterEnabled: bool,
                        body: seq<ElementId>, page: map<ElementId, Element>)
    requires |s.styles| <= 1 && Present(s.doc, body) && RestoresTo(s.doc, page)
    ensures var once := ApplyState(hue, s, enabled, brightness, masterEnabled, body);
      Present(once.doc, body)
      && ApplyState(hue, once, enabled, brightness, masterEnabled, body) == once
  {
    var once := ApplyState(hue, s, enabled, brightness, masterEnabled, body);
    ApplyRestores(hue, s, enabled, brightness, masterEnabled, body, page);
    RemoveRestores(s, page);
    assert |once.styles| <= 1;
    RemoveRestores(once, page);
    assert RemoveState(once).doc == RemoveState(s).doc;
  }

  /** `ApplyEnabled` for one unprotected element of the body. */
  lemma ApplyEnabledAt(hue: HuePath, s: EngineState, brightness: int, body: seq<ElementId>, x: ElementId)
    requires |s.styles| <= 1 && Present(s.doc, body) && x in body && x in s.doc && !Protected(s.doc[x])
    ensures var r := ApplyState(hue, s, true, brightness, true, body);
      Present(r.doc, body) && |r.styles| <= 1 && x in r.doc
      && r.doc[x] == Recolor(hue, Clear(s.doc[x])) && !Protected(r.doc[x])
  {
    FreshProcessEffect(hue, s.doc, body);
    var a := ProcessAll(hue, Activation(ClearAll(s.doc), {}), body);
    assert a.doc[x] == Recolor(hue, Clear(s.doc[x]));
    assert ApplyState(hue, s, true, brightness, true, body).doc == a.doc;
    RecolorKeepsProtection(hue, Clear(s.doc[x]));
  }

  /** An inline background the page set itself on an element whose computed
      background the engine does not overwrite (a transparent one, say)
      survives the first application and is removed by the second: applying
      is not idempotent on such pages. */
  lemma ApplyTwiceStripsPageStyle(hue: HuePath, s: EngineState, brightness: int, body: seq<ElementId>,
                                  x: ElementId)
    requires |s.styles| <= 1 && Present(s.doc, body) && x in body && x in s.doc
    requires !s.doc[x].marked && !Protected(s.doc[x]) && s.doc[x].inlineBackground.Some?
    requires Overwrite(hue, s.doc[x].backgroundColor).None?
    ensures var once := ApplyState(hue, s, true, brightness, true, body);
      Present(once.doc, body)
      && once.doc[x].inlineBackground == s.doc[x].inlineBackground
      && ApplyState(hue, once, true, brightness, true, body).doc[x].inlineBackground.None?
  {
    var e := s.doc[x];
    ApplyEnabledAt(hue, s, brightness, body, x);
    var once := ApplyState(hue, s, true, brightness, true, body);
    ApplyEnabledAt(hue, once, brightness, body, x);
    assert Clear(once.doc[x]).inlineBackground.None?;
    assert Clear(once.doc[x]).backgroundColor == e.backgroundColor;
  }

  // ---------------------------------------------------------------------
  // The engine's invariant

  /** Every transition keeps the engine consistent: at most one style
      element, the observer installed exactly while it is present, and every
      processed element marked. */
  lemma ConsistentPreserved(hue: HuePath, s: EngineState, enabled: bool, brightness: int, masterEnabled: bool,
                            body: seq<ElementId>, batch: seq<seq<AddedNode>>)
    requires Consistent(s)
    ensures Consistent(RemoveState(s))
    ensures Present(s.doc, body) ==> Consistent(ApplyState(hue, s, enabled, brightness, masterEnabled, body))
    ensures Present(s.doc, BatchIds(batch)) ==> Consistent(AddedState(hue, s, batch))
  {
    if Present(s.doc, body) && enabled && masterEnabled {
      ApplyEnabled(hue, s, brightness, body);
    }
    if Present(s.doc, BatchIds(batch)) && s.observing {
      var a := Activation(s.doc, s.processed);
      ProcessAllEffect(hue, a, BatchIds(batch));
      var r := AddedState(hue, s, batch);
      forall x | x in r.processed ensures x in r.doc && r.doc[x].marked {
        if x !in s.processed {
          RecolorKeepsProtection(hue, s.doc[x]);
        }
      }
    }
  }
}
