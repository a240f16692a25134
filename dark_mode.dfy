/** The dark-mode engine of entrypoints/content/dark-mode.ts.

    The document is a finite map from element identity to an element record;
    what the browser computes for an element (tag name, computed background
    image and colours) is part of the record, and what a
    `querySelectorAll('*')` returns is passed in as a sequence of element
    identities. The module-level observer, the injected style elements and
    the per-activation `processed` set are fields of `Engine`. */
module DarkMode {
  import opened Wrappers
  import opened Color
  import opened Dom

  type ElementId = nat

  /** An inline `background-color` or `color`: one the page set itself, or
      one the engine wrote (inverted channels and the original alpha, with
      `!important`). */
  datatype InlineValue = PageValue(text: string) | Recolored(r: int, g: int, b: int, alpha: real)

  /** One element of the document. */
  datatype Element = Element(
    tagName: string,
    backgroundImage: string,
    backgroundColor: string,
    color: string,
    inlineBackground: Option<InlineValue>,
    inlineColor: Option<InlineValue>,
    marked: bool)

  predicate Protected(e: Element) {
    IsProtected(e.tagName, e.backgroundImage)
  }

  /** The alpha test `a > 0.1`; NaN fails it. */
  predicate Visible(alpha: JsNumber) {
    alpha.Finite? && alpha.value > 0.1
  }

  /** What one channel of `processElement` writes: the inverted colour with
      the original alpha, or nothing when the computed value does not parse
      or is nearly transparent. */
  function Overwrite(hue: HuePath, computed: string): Option<InlineValue> {
    match ParseColor(computed)
    case None => None
    case Some(c) =>
      if Visible(c.alpha) then
        var v := InvertLightness(hue, c.r, c.g, c.b);
        Some(Recolored(v.r, v.g, v.b, c.alpha.value))
      else
        None
  }

  /** The effect of `processElement` on an element it does not skip: the
      marker is set whether or not a colour is written, and each channel is
      overwritten on its own. */
  function Recolor(hue: HuePath, e: Element): Element {
    var bg := Overwrite(hue, e.backgroundColor);
    var fg := Overwrite(hue, e.color);
    e.(marked := true,
       inlineBackground := if bg.Some? then bg else e.inlineBackground,
       inlineColor := if fg.Some? then fg else e.inlineColor)
  }

  /** The effect of `removeDarkMode` on one element: a marked element loses
      the marker and both inline colours, including those the page set. */
  function Clear(e: Element): Element {
    if e.marked then e.(marked := false, inlineBackground := None, inlineColor := None) else e
  }

  function ClearAll(doc: map<ElementId, Element>): map<ElementId, Element> {
    map x | x in doc :: Clear(doc[x])
  }

  /** The document together with the `processed` set of one activation. */
  datatype Activation = Activation(doc: map<ElementId, Element>, processed: set<ElementId>)

  predicate Present(doc: map<ElementId, Element>, ids: seq<ElementId>) {
    forall k :: 0 <= k < |ids| ==> ids[k] in doc
  }

  /** `processElement(el, processed)`. */
  function Process(hue: HuePath, a: Activation, id: ElementId): Activation
    requires id in a.doc
  {
    if id in a.processed || Protected(a.doc[id]) then a
    else Activation(a.doc[id := Recolor(hue, a.doc[id])], a.processed + {id})
  }

  /** `processElement` applied to each identity of `ids` in order. */
  function ProcessAll(hue: HuePath, a: Activation, ids: seq<ElementId>): (r: Activation)
    requires Present(a.doc, ids)
    ensures r.doc.Keys == a.doc.Keys
  {
    if ids == [] then a
    else
      var before := ProcessAll(hue, a, ids[..|ids| - 1]);
      Process(hue, before, ids[|ids| - 1])
  }

  /** A node of `MutationRecord.addedNodes`: a non-element node, or an
      element with what its `querySelectorAll('*')` returns. */
  datatype AddedNode = OtherNode | ElementNode(id: ElementId, descendants: seq<ElementId>)

  /** The identities the observer callback processes for one added node: the
      element, then its descendants; nothing for other nodes. */
  function NodeIds(n: AddedNode): seq<ElementId> {
    if n.ElementNode? then [n.id] + n.descendants else []
  }

  /** The same for some added nodes, in order. */
  function NodesIds(nodes: seq<AddedNode>): seq<ElementId> {
    if nodes == [] then [] else NodeIds(nodes[0]) + NodesIds(nodes[1..])
  }

  /** The same for a batch of mutation records. */
  function BatchIds(batch: seq<seq<AddedNode>>): seq<ElementId> {
    if batch == [] then [] else NodesIds(batch[0]) + BatchIds(batch[1..])
  }

  /** Everything the engine and the document hold: the elements, the style
      elements carrying the brightness filter (each recorded by its
      `brightness`), whether the observer is installed, and the current
      activation's `processed` set. */
  datatype EngineState = EngineState(
    doc: map<ElementId, Element>,
    styles: seq<int>,
    observing: bool,
    processed: set<ElementId>)

  /** `removeDarkMode`. */
  function RemoveState(s: EngineState): EngineState {
    s.(doc := ClearAll(s.doc), styles := RemoveFirst(s.styles), observing := false)
  }

  /** `applyDarkMode(enabled, brightness, masterEnabled)` on a document whose
      body returns `body` for `querySelectorAll('*')`. */
  function ApplyState(hue: HuePath, s: EngineState, enabled: bool, brightness: int, masterEnabled: bool,
                      body: seq<ElementId>): EngineState
    requires Present(s.doc, body)
  {
    var r := RemoveState(s);
    if !enabled || !masterEnabled then r
    else
      var a := ProcessAll(hue, Activation(r.doc, {}), body);
      r.(doc := a.doc, processed := a.processed, styles := r.styles + [brightness], observing := true)
  }

  /** The observer callback for one batch of mutation records; nothing
      happens when no observer is installed. */
  function AddedState(hue: HuePath, s: EngineState, batch: seq<seq<AddedNode>>): EngineState
    requires Present(s.doc, BatchIds(batch))
  {
    if !s.observing then s
    else
      var a := ProcessAll(hue, Activation(s.doc, s.processed), BatchIds(batch));
      s.(doc := a.doc, processed := a.processed)
  }

  /** At most one style element; the observer is installed exactly when the
      style element is present; while active every processed element exists
      and carries the marker. */
  predicate Consistent(s: EngineState) {
    |s.styles| <= 1
    && (s.observing <==> |s.styles| == 1)
    && (s.observing ==> forall x :: x in s.processed ==> x in s.doc && s.doc[x].marked)
  }
}
