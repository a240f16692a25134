/** The dark-mode engine as the content script holds it: the page's
    elements, the injected style elements, the module-level `observer` and
    the `processed` set the observer's callback closes over. */
module DarkModeEngine {
  import opened Wrappers
  import opened Color
  import opened DarkMode
  import opened DarkModeProofs

  /** The loop of `removeDarkMode` over the elements carrying the marker:
      each loses the marker and both inline colours. */
  method ClearMarked(doc: map<ElementId, Element>) returns (cleared: map<ElementId, Element>)
    ensures cleared == ClearAll(doc)
  {
    cleared := doc;
    var pending: set<ElementId> := set x | x in doc && doc[x].marked;
    while pending != {}
      invariant cleared.Keys == doc.Keys
      invariant forall y :: y in pending ==> y in doc && doc[y].marked
      invariant forall y :: y in doc ==> cleared[y] == if y in pending then doc[y] else Clear(doc[y])
      decreases |pending|
    {
      var x :| x in pending;
      cleared := cleared[x := cleared[x].(marked := false, inlineBackground := None, inlineColor := None)];
      pending := pending - {x};
    }
  }

  class Engine {
    /** The chromatic path of `invertLightness`, fixed for the engine. */
    const hue: HuePath
    var doc: map<ElementId, Element>
    /** The style elements with id `eye-protect-dark-mode-style`, in document
        order, each recorded by its brightness. */
    var styles: seq<int>
    /** Whether `observer` is non-null and observing. */
    var observing: bool
    /** The `processed` set of the current activation. */
    var processed: set<ElementId>

    function State(): EngineState
      reads this
    {
      EngineState(doc, styles, observing, processed)
    }

    predicate Valid()
      reads this
    {
      Consistent(State())
    }

    /** A page before the content script has done anything. */
    constructor(hue: HuePath, page: map<ElementId, Element>)
      ensures this.hue == hue && State() == EngineState(page, [], false, {})
      ensures Valid()
    {
      this.hue := hue;
      doc := page;
      styles := [];
      observing := false;
      processed := {};
    }

    /** `processElement(el, processed)`. */
    method ProcessElement(id: ElementId)
      requires id in doc
      modifies this
      ensures Activation(doc, processed) == Process(hue, Activation(old(doc), old(processed)), id)
      ensures styles == old(styles) && observing == old(observing)
    {
      var e := doc[id];
      if id in processed || IsProtected(e.tagName, e.backgroundImage) {
        return;
      }
      processed := processed + {id};
      var bgColor := ParseColor(e.backgroundColor);
      var textColor := ParseColor(e.color);
      e := e.(marked := true);
      if bgColor.Some? && Visible(bgColor.value.alpha) {
        var v := InvertLightness(hue, bgColor.value.r, bgColor.value.g, bgColor.value.b);
        e := e.(inlineBackground := Some(Recolored(v.r, v.g, v.b, bgColor.value.alpha.value)));
      }
      if textColor.Some? && Visible(textColor.value.alpha) {
        var v := InvertLightness(hue, textColor.value.r, textColor.value.g, textColor.value.b);
        e := e.(inlineColor := Some(Recolored(v.r, v.g, v.b, textColor.value.alpha.value)));
      }
      doc := doc[id := e];
    }

    /** `elements.forEach(el => processElement(el, processed))`. */
    method ProcessEach(ids: seq<ElementId>)
      requires Present(doc, ids)
      modifies this
      ensures Activation(doc, processed) == ProcessAll(hue, Activation(old(doc), old(processed)), ids)
      ensures styles == old(styles) && observing == old(observing)
    {
      ghost var a0 := Activation(doc, processed);
      var i := 0;
      while i < |ids|
        invariant 0 <= i <= |ids|
        invariant Present(a0.doc, ids[..i])
        invariant Activation(doc, processed) == ProcessAll(hue, a0, ids[..i])
        invariant styles == old(styles) && observing == old(observing)
      {
        assert ids[..i + 1][..i] == ids[..i];
        ProcessElement(ids[i]);
        i := i + 1;
      }
      assert ids[..|ids|] == ids;
    }

    /** `removeDarkMode`: remove the style element, disconnect the observer
        and clear every marked element. */
    method RemoveDarkMode()
      requires Valid()
      modifies this
      ensures State() == RemoveState(old(State()))
      ensures Valid()
    {
      if styles != [] {
        styles := styles[1..];
      }
      observing := false;
      doc := ClearMarked(doc);
    }

    /** `applyDarkMode(enabled, brightness, masterEnabled)` on a document whose
        body's `querySelectorAll('*')` returns `body`. */
    method ApplyDarkMode(enabled: bool, brightness: int, masterEnabled: bool, body: seq<ElementId>)
      requires Valid() && Present(doc, body)
      modifies this
      ensures State() == ApplyState(hue, old(State()), enabled, brightness, masterEnabled, body)
      ensures Valid()
    {
      ConsistentPreserved(hue, State(), enabled, brightness, masterEnabled, body, []);
      RemoveDarkMode();
      if !enabled || !masterEnabled {
        return;
      }
      processed := {};
      styles := styles + [brightness];
      ProcessEach(body);
      observing := true;
    }

    /** One node of `mutation.addedNodes`: an element is processed, then
        each of its descendants. */
    method ProcessNode(node: AddedNode)
      requires Present(doc, NodeIds(node))
      modifies this
      ensures Activation(doc, processed) == ProcessAll(hue, Activation(old(doc), old(processed)), NodeIds(node))
      ensures styles == old(styles) && observing == old(observing)
    {
      ghost var a0 := Activation(doc, processed);
      if node.ElementNode? {
        assert node.id == NodeIds(node)[0];
        ProcessElement(node.id);
        assert [node.id][..0] == [];
        assert Activation(doc, processed) == ProcessAll(hue, a0, [node.id]);
        assert forall k :: 0 <= k < |node.descendants| ==> node.descendants[k] == NodeIds(node)[k + 1];
        ProcessEach(node.descendants);
        ProcessAllAppend(hue, a0, [node.id], node.descendants);
      }
    }

    /** The nodes of one mutation record, in order. */
    method ProcessNodes(nodes: seq<AddedNode>)
      requires Present(doc, NodesIds(nodes))
      modifies this
      ensures Activation(doc, processed) == ProcessAll(hue, Activation(old(doc), old(processed)), NodesIds(nodes))
      ensures styles == old(styles) && observing == old(observing)
    {
      ghost var a0 := Activation(doc, processed);
      var n := 0;
      assert nodes[..0] == [];
      while n < |nodes|
        invariant 0 <= n <= |nodes|
        invariant doc.Keys == a0.doc.Keys && styles == old(styles) && observing == old(observing)
        invariant Present(a0.doc, NodesIds(nodes[..n]))
        invariant Activation(doc, processed) == ProcessAll(hue, a0, NodesIds(nodes[..n]))
      {
        NodesSplit(nodes, n);
        NodesStep(nodes, n);
        PresentParts(a0.doc, NodesIds(nodes[..n]), NodeIds(nodes[n]), NodesIds(nodes[n + 1..]));
        ProcessNode(nodes[n]);
        ProcessAllAppend(hue, a0, NodesIds(nodes[..n]), NodeIds(nodes[n]));
        n := n + 1;
      }
      assert nodes[..|nodes|] == nodes;
    }

    /** The observer's callback for one batch of mutation records. Nothing
        happens once the observer is disconnected. */
    method OnMutations(batch: seq<seq<AddedNode>>)
      requires Valid() && Present(doc, BatchIds(batch))
      modifies this
      ensures State() == AddedState(hue, old(State()), batch)
      ensures Valid()
    {
      ConsistentPreserved(hue, State(), false, 0, false, [], batch);
      if !observing {
        return;
      }
      ghost var a0 := Activation(doc, processed);
      var m := 0;
      assert batch[..0] == [];
      while m < |batch|
        invariant 0 <= m <= |batch|
        invariant doc.Keys == a0.doc.Keys && styles == old(styles) && observing
        invariant Present(a0.doc, BatchIds(batch[..m]))
        invariant Activation(doc, processed) == ProcessAll(hue, a0, BatchIds(batch[..m]))
      {
        BatchSplit(batch, m);
        BatchStep(batch, m);
        PresentParts(a0.doc, BatchIds(batch[..m]), NodesIds(batch[m]), BatchIds(batch[m + 1..]));
        ProcessNodes(batch[m]);
        ProcessAllAppend(hue, a0, BatchIds(batch[..m]), NodesIds(batch[m]));
        m := m + 1;
      }
      assert batch[..|batch|] == batch;
    }
  }
}
