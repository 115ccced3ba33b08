/**
  The metric scene of the metric-exploration app: a flex layout whose first
  two children are the main graph panel and the action bar, and an optional
  "action view" (overview, breakdown, logs, related metrics) shown as a third
  child. The selected view is kept in the `actionView` state field and synced
  with the URL key `actionView`.

  The scene objects are classes whose fields the source updates with
  `setState`. Their observable state is abstracted to a `SceneState` value;
  the pure functions over `SceneState` state what each operation does, and
  the methods of `MetricScene` are proved to follow them.
 */
module MetricScene {
  import opened Wrappers

  /** A flex item's `maxHeight`: a number of pixels or a CSS length. */
  datatype MaxHeight = Pixels(px: nat) | CssLength(css: string)

  const MainPanelMinHeight: nat := 280
  const MainPanelMaxHeight: string := "40%"

  /** The four scene builders the registry refers to; what they build is opaque. */
  datatype SceneBuilder =
    | MetricOverviewScene
    | BreakdownActionScene
    | LogsScene
    | RelatedMetricsScene

  /** What a flex item of the layout shows. */
  datatype SceneBody =
    | AutoVizPanel(metric: string)
    | ActionBar
    | ActionViewScene(builder: SceneBuilder)

  datatype ActionViewDefinition = ActionViewDefinition(displayName: string, value: string, getScene: SceneBuilder)

  /** The fixed, ordered registry of action views; its order is the tab order. */
  const ActionViewsDefinitions: seq<ActionViewDefinition> := [
    ActionViewDefinition("Overview", "overview", MetricOverviewScene),
    ActionViewDefinition("Breakdown", "breakdown", BreakdownActionScene),
    ActionViewDefinition("Logs", "logs", LogsScene),
    ActionViewDefinition("Related metrics", "related", RelatedMetricsScene)
  ]

  predicate IsKnownView(id: string) {
    exists i :: 0 <= i < |ActionViewsDefinitions| && ActionViewsDefinitions[i].value == id
  }

  /** `Array.prototype.find`: the first definition whose value is `id`. */
  function FindFirst(defs: seq<ActionViewDefinition>, id: Option<string>): (r: Option<ActionViewDefinition>)
    ensures r.None? <==> forall i :: 0 <= i < |defs| ==> Some(defs[i].value) != id
    ensures r.Some? ==> exists i :: 0 <= i < |defs| && defs[i] == r.value && Some(r.value.value) == id
                                   && forall j :: 0 <= j < i ==> Some(defs[j].value) != id
  {
    if defs == [] then None
    else if Some(defs[0].value) == id then Some(defs[0])
    else
      var r := FindFirst(defs[1..], id);
      assert r.Some? ==> exists i :: 0 <= i < |defs| - 1 && defs[1..][i] == r.value && Some(r.value.value) == id
                                     && forall j :: 0 <= j < i ==> Some(defs[1..][j].value) != id;
      r
  }

  /** The registry lookup of `setActionView` and `updateFromUrl`. An absent id matches nothing. */
  function FindDefinition(id: Option<string>): (r: Option<ActionViewDefinition>)
    ensures r.Some? <==> id.Some? && IsKnownView(id.value)
    ensures r.Some? ==> r.value in ActionViewsDefinitions && Some(r.value.value) == id
  {
    FindFirst(ActionViewsDefinitions, id)
  }

  /** The registry values are distinct, so each view has exactly one definition. */
  lemma RegistryValuesDistinct()
    ensures forall i, j :: 0 <= i < j < |ActionViewsDefinitions| ==>
              ActionViewsDefinitions[i].value != ActionViewsDefinitions[j].value
  {
  }

  // ---------------------------------------------------------------------------
  // Abstract state and the specification of each operation.

  /** The observable state of one flex item. */
  datatype ItemView = ItemView(maxHeight: Option<MaxHeight>, body: SceneBody)

  /** The observable state of a metric scene: its layout's children and its action view. */
  datatype SceneState = SceneState(children: seq<ItemView>, actionView: Option<string>)

  /**
    The scene's invariant: the main panel and the action bar come first, a
    third child is present exactly when a view is selected and shows that
    view's scene, and the main panel is compact exactly when a view is shown.
   */
  ghost predicate Consistent(s: SceneState) {
    && (|s.children| == 2 || |s.children| == 3)
    && s.children[0].body.AutoVizPanel?
    && s.children[1].body == ActionBar
    && (|s.children| == 3 <==> s.actionView.Some?)
    && (s.actionView.Some? ==>
          IsKnownView(s.actionView.value)
          && s.children[2] == ItemView(None, ActionViewScene(FindDefinition(s.actionView).value.getScene)))
    && s.children[0].maxHeight == Some(if s.actionView.Some? then Pixels(MainPanelMinHeight)
                                       else CssLength(MainPanelMaxHeight))
  }

  /** The state of a scene whose layout was built by `buildGraphScene`. */
  function InitialState(metric: string): (s: SceneState)
    ensures Consistent(s) && s.actionView.None?
  {
    SceneState([ItemView(Some(CssLength(MainPanelMaxHeight)), AutoVizPanel(metric)), ItemView(None, ActionBar)], None)
  }

  function Min(a: int, b: int): int {
    if a < b then a else b
  }

  /**
    `setActionView(id)`. A known id other than the current view shows that
    view; anything else (no id, an unknown id, or the id already shown)
    clears it, so selecting the current view twice toggles it off.
   */
  function AfterSetActionView(s: SceneState, id: Option<string>): (r: SceneState)
    requires |s.children| >= 1
    ensures r.actionView.Some? <==> id.Some? && IsKnownView(id.value) && id != s.actionView
    ensures r.actionView.Some? ==> r.actionView == id
  {
    var def := FindDefinition(id);
    var kept := s.children[..Min(2, |s.children|)];
    if def.Some? && Some(def.value.value) != s.actionView then
      var main := kept[0].(maxHeight := Some(Pixels(MainPanelMinHeight)));
      SceneState([main] + kept[1..] + [ItemView(None, ActionViewScene(def.value.getScene))], Some(def.value.value))
    else
      var main := kept[0].(maxHeight := Some(CssLength(MainPanelMaxHeight)));
      SceneState([main] + kept[1..], None)
  }

  /**
    The layout after `setActionView`: the first two children are kept, the
    first one resized to match the selection, and a third child is present
    exactly when a view is selected.
   */
  lemma SetActionViewLayout(s: SceneState, id: Option<string>)
    requires |s.children| >= 1
    ensures var r := AfterSetActionView(s, id);
            && |r.children| == Min(2, |s.children|) + (if r.actionView.Some? then 1 else 0)
            && r.children[0] == s.children[0].(maxHeight := Some(if r.actionView.Some? then Pixels(MainPanelMinHeight)
                                                                 else CssLength(MainPanelMaxHeight)))
            && r.children[1..Min(2, |s.children|)] == s.children[1..Min(2, |s.children|)]
  {
  }

  /** `setActionView` keeps a consistent scene consistent. */
  lemma SetActionViewKeepsConsistency(s: SceneState, id: Option<string>)
    requires Consistent(s)
    ensures Consistent(AfterSetActionView(s, id))
  {
  }

  /** `setActionView` on a layout with at least two children, written out for each branch. */
  lemma AfterSetActionViewCases(s: SceneState, id: Option<string>)
    requires |s.children| >= 2
    ensures var def := FindDefinition(id);
            def.Some? && Some(def.value.value) != s.actionView ==>
              AfterSetActionView(s, id) == SceneState([s.children[0].(maxHeight := Some(Pixels(MainPanelMinHeight))), s.children[1],
                                                       ItemView(None, ActionViewScene(def.value.getScene))], Some(def.value.value))
    ensures var def := FindDefinition(id);
            !(def.Some? && Some(def.value.value) != s.actionView) ==>
              AfterSetActionView(s, id) == SceneState([s.children[0].(maxHeight := Some(CssLength(MainPanelMaxHeight))), s.children[1]], None)
  {
    var kept := s.children[..Min(2, |s.children|)];
    assert kept[1..] == [s.children[1]];
  }

  /** The value `updateFromUrl` receives for the key `actionView`. */
  datatype UrlValue = Absent | Null | Str(s: string) | StrArray(items: seq<string>)

  /**
    `updateFromUrl`. A string that names a known view other than the current
    one selects it; any other string changes nothing. `null` clears the view;
    an absent value or a list of strings changes nothing.
   */
  function AfterUpdateFromUrl(s: SceneState, v: UrlValue): (r: SceneState)
    requires |s.children| >= 1
    ensures v.Null? ==> r.actionView.None?
    ensures (v.Absent? || v.StrArray?) ==> r == s
    ensures v.Str? && (Some(v.s) == s.actionView || !IsKnownView(v.s)) ==> r == s
    ensures v.Str? && Some(v.s) != s.actionView && IsKnownView(v.s) ==> r.actionView == Some(v.s)
  {
    match v
    case Str(x) =>
      if s.actionView != Some(x) then
        var def := FindDefinition(Some(x));
        if def.Some? then AfterSetActionView(s, Some(def.value.value)) else s
      else s
    case Null => AfterSetActionView(s, None)
    case _ => s
  }

  /** `updateFromUrl` keeps a consistent scene consistent. */
  lemma UpdateFromUrlKeepsConsistency(s: SceneState, v: UrlValue)
    requires Consistent(s)
    ensures Consistent(AfterUpdateFromUrl(s, v))
  {
    match v
    case Str(x) =>
      if s.actionView != Some(x) && FindDefinition(Some(x)).Some? {
        SetActionViewKeepsConsistency(s, Some(x));
      }
    case Null => SetActionViewKeepsConsistency(s, None);
    case _ =>
  }

  /** How the URL sync hands a `getUrlState` result back to `updateFromUrl`. */
  function UrlValueOf(actionView: Option<string>): UrlValue {
    match actionView
    case Some(x) => Str(x)
    case None => Absent
  }

  /** Feeding the scene its own URL state back changes nothing. */
  lemma UrlStateRoundTrip(s: SceneState)
    requires |s.children| >= 1
    ensures AfterUpdateFromUrl(s, UrlValueOf(s.actionView)) == s
  {
  }

  /** Selecting the view that is already shown clears it (a toggle, not an idempotent set). */
  lemma SelectingCurrentViewClearsIt(s: SceneState, id: string)
    requires Consistent(s) && s.actionView == Some(id)
    ensures AfterSetActionView(s, Some(id)).actionView.None?
    ensures |AfterSetActionView(s, Some(id)).children| == 2
  {
  }

  /** From the idle layout, selecting a view twice restores the layout exactly. */
  lemma SelectingTwiceRestoresIdle(s: SceneState, id: string)
    requires Consistent(s) && s.actionView.None? && IsKnownView(id)
    ensures AfterSetActionView(AfterSetActionView(s, Some(id)), Some(id)) == s
  {
    var r := AfterSetActionView(AfterSetActionView(s, Some(id)), Some(id));
    assert r.children == [s.children[0], s.children[1]] == s.children;
  }

  /** Switching from one view to another replaces only the third child. */
  lemma SwitchingViewsReplacesThirdChild(s: SceneState, id: string)
    requires Consistent(s) && s.actionView.Some? && IsKnownView(id) && s.actionView != Some(id)
    ensures var r := AfterSetActionView(s, Some(id));
            r.children[..2] == s.children[..2]
            && r.children[2] == ItemView(None, ActionViewScene(FindDefinition(Some(id)).value.getScene))
  {
    var r := AfterSetActionView(s, Some(id));
    assert r.children[..2] == [r.children[0], r.children[1]];
  }

  /** Clearing from any consistent state gives the two-child layout with the main panel expanded. */
  lemma ClearingGivesIdle(s: SceneState, v: UrlValue)
    requires Consistent(s) && v.Null?
    ensures var r := AfterUpdateFromUrl(s, v);
            r.actionView.None? && r.children == [s.children[0].(maxHeight := Some(CssLength(MainPanelMaxHeight))), s.children[1]]
  {
    var r := AfterUpdateFromUrl(s, v);
    assert r.children == [r.children[0]] + r.children[1..2];
  }

  // ---------------------------------------------------------------------------
  // The action bar's tabs.

  datatype ButtonVariant = Active | Canvas

  /** `MetricActionBar.getButtonVariant`. */
  function GetButtonVariant(actionViewName: string, currentView: Option<string>): (r: ButtonVariant)
    ensures r == Active <==> currentView == Some(actionViewName)
    ensures r == Canvas <==> currentView != Some(actionViewName)
  {
    if currentView == Some(actionViewName) then Active else Canvas
  }

  /** In a consistent state, exactly one tab is active when a view is shown, and none otherwise. */
  lemma {:induction false} ActiveTabIsUnique(s: SceneState)
    requires Consistent(s)
    ensures s.actionView.None? ==>
              forall i :: 0 <= i < |ActionViewsDefinitions| ==> GetButtonVariant(ActionViewsDefinitions[i].value, s.actionView) == Canvas
    ensures s.actionView.Some? ==>
              exists i :: 0 <= i < |ActionViewsDefinitions|
                && GetButtonVariant(ActionViewsDefinitions[i].value, s.actionView) == Active
                && forall j :: 0 <= j < |ActionViewsDefinitions| && j != i ==>
                     GetButtonVariant(ActionViewsDefinitions[j].value, s.actionView) == Canvas
  {
    RegistryValuesDistinct();
    if s.actionView.Some? {
      var i :| 0 <= i < |ActionViewsDefinitions| && ActionViewsDefinitions[i].value == s.actionView.value;
      assert GetButtonVariant(ActionViewsDefinitions[i].value, s.actionView) == Active;
    }
  }

  // ---------------------------------------------------------------------------
  // The scene objects.

  class SceneFlexItem {
    var maxHeight: Option<MaxHeight>
    const body: SceneBody

    constructor (maxHeight: Option<MaxHeight>, body: SceneBody)
      ensures this.maxHeight == maxHeight && this.body == body
    {
      this.maxHeight := maxHeight;
      this.body := body;
    }
  }

  class SceneFlexLayout {
    var children: seq<SceneFlexItem>

    constructor (children: seq<SceneFlexItem>)
      ensures this.children == children
    {
      this.children := children;
    }
  }

  /** `actionViewDef.getScene()`: a new scene object showing that view. */
  method BuildActionViewScene(def: ActionViewDefinition) returns (item: SceneFlexItem)
    ensures fresh(item)
    ensures item.maxHeight.None? && item.body == ActionViewScene(def.getScene)
  {
    item := new SceneFlexItem(None, ActionViewScene(def.getScene));
  }

  class MetricScene {
    const metric: string
    const body: SceneFlexLayout
    var actionView: Option<string>

    ghost function View(): SceneState
      reads this, body, body.children
    {
      SceneState(seq(|body.children|, i reads body, body.children requires 0 <= i < |body.children| =>
                       ItemView(body.children[i].maxHeight, body.children[i].body)),
                 actionView)
    }

    /** The main panel and the action bar are distinct objects, and the state is consistent. */
    ghost predicate Valid()
      reads this, body, body.children
    {
      && |body.children| >= 2
      && body.children[0] != body.children[1]
      && (|body.children| == 3 ==> body.children[2] != body.children[0] && body.children[2] != body.children[1])
      && Consistent(View())
    }

    /** The constructor with the layout of `buildGraphScene`. */
    constructor (metric: string)
      ensures Valid() && this.metric == metric
      ensures View() == InitialState(metric)
      ensures fresh(body) && fresh(body.children[0]) && fresh(body.children[1])
    {
      this.metric := metric;
      var main := new SceneFlexItem(Some(CssLength(MainPanelMaxHeight)), AutoVizPanel(metric));
      var bar := new SceneFlexItem(None, ActionBar);
      body := new SceneFlexLayout([main, bar]);
      actionView := None;
      new;
      assert View().children == InitialState(metric).children;
    }

    /** `getUrlState`: the value synced to the URL key `actionView`. */
    method GetUrlState() returns (value: Option<string>)
      ensures value == actionView
    {
      value := actionView;
    }

    /** The branch of `setActionView` that shows `def`'s view as a new third child. */
    method ShowActionView(def: ActionViewDefinition)
      requires Valid()
      modifies this, body, body.children[0]
      ensures |body.children| == 3 && body.children[..2] == old(body.children[..2]) && fresh(body.children[2])
      ensures View() == SceneState( [old(View()).children[0].(maxHeight := Some(Pixels(MainPanelMinHeight))),
                                  old(View()).children[1], ItemView(None, ActionViewScene(def.getScene))], Some(def.value))
    {
      body.children[0].maxHeight := Some(Pixels(MainPanelMinHeight));
      var scene := BuildActionViewScene(def);
      body.children := body.children[..2] + [scene];
      actionView := Some(def.value);
    }

    /** The branch of `setActionView` that drops the third child and forgets the view. */
    method HideActionView()
      requires Valid()
      modifies this, body, body.children[0]
      ensures |body.children| == 2 && body.children[..2] == old(body.children[..2])
      ensures View() == SceneState( [old(View()).children[0].(maxHeight := Some(CssLength(MainPanelMaxHeight))),
                                  old(View()).children[1]], None)
    {
      body.children[0].maxHeight := Some(CssLength(MainPanelMaxHeight));
      body.children := body.children[..2];
      actionView := None;
    }

    /**
      `setActionView`. The first child's `maxHeight` is set before the
      children are replaced, so it is the old first child that is resized;
      that object stays first.
     */
    method SetActionView(id: Option<string>)
      requires Valid()
      modifies this, body, body.children[0]
      ensures |body.children| >= 2 && body.children[..2] == old(body.children[..2])
      ensures |body.children| == 3 ==> fresh(body.children[2])
      ensures View() == AfterSetActionView(old(View()), id)
      ensures Valid()
    {
      AfterSetActionViewCases(View(), id);
      SetActionViewKeepsConsistency(View(), id);
      var def := FindDefinition(id);
      if def.Some? && Some(def.value.value) != actionView {
        ShowActionView(def.value);
      } else {
        HideActionView();
      }
    }

    /** `updateFromUrl` for the key `actionView`. */
    method UpdateFromUrl(v: UrlValue)
      requires Valid()
      modifies this, body, body.children[0]
      ensures Valid()
      ensures View() == AfterUpdateFromUrl(old(View()), v)
      ensures body.children[..2] == old(body.children[..2])
    {
      match v {
        case Str(x) =>
          if actionView != Some(x) {
            var def := FindDefinition(Some(x));
            if def.Some? {
              SetActionView(Some(def.value.value));
            }
          }
        case Null =>
          SetActionView(None);
        case _ =>
      }
    }
  }

  /**
    The default-selection rule of the action bar's render (lines 123-125):
    with no view selected, the first registry entry is selected, so after a
    render a view is always shown.
   */
  method RenderActionBar(scene: MetricScene)
    requires scene.Valid()
    modifies scene, scene.body, scene.body.children[0]
    ensures scene.Valid()
    ensures scene.actionView.Some?
    ensures old(scene.actionView).None? ==> scene.actionView == Some(ActionViewsDefinitions[0].value)
    ensures old(scene.actionView).Some? ==> scene.View() == old(scene.View())
  {
    if scene.actionView.None? || scene.actionView == Some("") {
      scene.SetActionView(Some(ActionViewsDefinitions[0].value));
    }
  }

  /** A tab's `onChangeTab`: select that tab's view, which for the active tab clears it. */
  method OnChangeTab(scene: MetricScene, index: nat)
    requires scene.Valid() && index < |ActionViewsDefinitions|
    modifies scene, scene.body, scene.body.children[0]
    ensures scene.Valid()
    ensures scene.View() == AfterSetActionView(old(scene.View()), Some(ActionViewsDefinitions[index].value))
  {
    scene.SetActionView(Some(ActionViewsDefinitions[index].value));
  }
}
