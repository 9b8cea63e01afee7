/** The form itself: its settings, the attributes of the `<form>` tag and
    `render_all`, which renders every element in order between the open and the
    close tag. */
module Form {
  import opened Php
  import opened Assoc
  import opened Elements
  import opened Placement
  import opened Decorators
  import opened Pipeline

  /** The state of a form that rendering reads or changes. `requiredStyle` is
      PHP's `$required_style`, None while it is still null. */
  datatype FormState = FormState(
    confirm: bool,
    action: string,
    userOptions: Dict,
    elementClass: string,
    labelClass: string,
    requiredStyle: Option<string>,
    elements: seq<Element>)

  /** A new form with its defaults. */
  function NewForm(userOptions: Dict, elements: seq<Element>): (f: FormState)
    ensures !f.confirm && f.requiredStyle.None?
    ensures f.elementClass == "form-control col-sm-6 mr-1"
    ensures f.labelClass == "col-form-label col-sm-2"
  {
    FormState(false, "", userOptions, "form-control col-sm-6 mr-1", "col-form-label col-sm-2", None, elements)
  }

  // ---------------------------------------------------------------- settings

  /** `getConfirm()`: true in confirm mode. */
  function GetConfirm(f: FormState): (r: bool)
    ensures r <==> f.confirm
  {
    f.confirm
  }

  /** `setConfirm($confirmMode)`: the mode is read back by `getConfirm`, and
      nothing else about the form changes. */
  function SetConfirm(f: FormState, mode: bool): (r: FormState)
    ensures GetConfirm(r) == mode
    ensures r.(confirm := f.confirm) == f
  {
    f.(confirm := mode)
  }

  /** `setDefaultElementClass($newClass)`: null leaves the class as it was. */
  function SetDefaultElementClass(f: FormState, newClass: Option<string>): (r: FormState)
    ensures newClass.Some? ==> r.elementClass == newClass.value
    ensures newClass.None? ==> r == f
    ensures r.(elementClass := f.elementClass) == f
  {
    match newClass
    case Some(c) => f.(elementClass := c)
    case None => f
  }

  /** `setDefaultLabelClass($newClass)`: null leaves the class as it was. */
  function SetDefaultLabelClass(f: FormState, newClass: Option<string>): (r: FormState)
    ensures newClass.Some? ==> r.labelClass == newClass.value
    ensures newClass.None? ==> r == f
    ensures r.(labelClass := f.labelClass) == f
  {
    match newClass
    case Some(c) => f.(labelClass := c)
    case None => f
  }

  /** A new label class reaches the label step of the default steps. */
  lemma LabelClassReachesDefaults(f: FormState, c: string)
    ensures OptionsOf(DefaultDecorators(SetDefaultLabelClass(f, Some(c)).labelClass).normal[2]).attributes == [("class", c)]
  {
  }

  /** `getRequiredStyle()`: the stored style unless it is null (`??`). */
  function GetRequiredStyle(f: FormState): (r: string)
    ensures f.requiredStyle.Some? ==> r == f.requiredStyle.value
    ensures f.requiredStyle.None? ==> r == DefaultRequiredStyle
  {
    match f.requiredStyle
    case Some(s) => s
    case None => DefaultRequiredStyle
  }

  /** `setRequiredStyle($style)` as written: it tests `$newClass`, a variable
      the method does not have, which PHP reads as null, so the style is never
      stored. */
  function SetRequiredStyleAsWritten(f: FormState, style: Option<string>): (r: FormState)
    ensures r == f
  {
    var newClass: Option<string> := None;
    if newClass.Some? then f.(requiredStyle := style) else f
  }

  /** The discrepancy: asking a new form for a blue marker leaves it red. */
  lemma SetRequiredStyleAsWrittenIgnoresStyle(userOptions: Dict, elements: seq<Element>)
    ensures GetRequiredStyle(SetRequiredStyleAsWritten(NewForm(userOptions, elements), Some("color:blue")))
            == DefaultRequiredStyle
    ensures DefaultRequiredStyle != "color:blue"
  {
    assert DefaultRequiredStyle[6] != "color:blue"[6];
  }

  /** `setRequiredStyle($style)` as intended: a non-null style is stored, null
      leaves the form as it was. */
  function SetRequiredStyle(f: FormState, style: Option<string>): (r: FormState)
    ensures style.Some? ==> GetRequiredStyle(r) == style.value
    ensures style.None? ==> r == f
    ensures r.(requiredStyle := f.requiredStyle) == f
  {
    match style
    case Some(s) => f.(requiredStyle := Some(s))
    case None => f
  }

  /** With the intended setter a truthy style is the one the label step prints. */
  lemma SetRequiredStyleReachesMarker(f: FormState, s: string)
    requires Truthy(s)
    ensures MarkerStyle(SetRequiredStyle(f, Some(s)).requiredStyle) == s
  {
  }

  // ---------------------------------------------------------------- the form tag

  /** `$_default_form_params`. */
  const DefaultFormParams: Dict :=
    [("autocomplete", "off"), ("enctype", "application/x-www-form-urlencoded"), ("method", "post")]

  /** The value of a key across the three layers, the later layer winning. */
  function Layered(config: Dict, user: Dict, k: string): Option<string> {
    if HasKey(user, k) then Get(user, k)
    else if HasKey(config, k) then Get(config, k)
    else Get(DefaultFormParams, k)
  }

  /** The two `array_merge` calls look a key up layer by layer. */
  lemma MergedLookup(config: Dict, user: Dict, k: string)
    ensures Get(Merge(Merge(DefaultFormParams, config), user), k) == Layered(config, user, k)
  {
    MergeGet(Merge(DefaultFormParams, config), user, k);
    MergeGet(DefaultFormParams, config, k);
  }

  /** The step after the merge: the action is forced, and the encoding type is
      dropped unless the method is exactly "post". */
  function ForceAction(merged: Dict, action: string): (r: Dict)
    ensures Get(r, "action") == Some(action)
    ensures HasKey(r, "enctype") <==> Get(merged, "method") == Some("post") && Get(merged, "enctype").Some?
    ensures HasKey(r, "enctype") ==> Get(r, "enctype") == Get(merged, "enctype")
    ensures forall k :: k != "action" && k != "enctype" ==> Get(r, k) == Get(merged, k)
  {
    var withAction := Put(merged, "action", action);
    if Get(withAction, "method") != Some("post") then Remove(withAction, "enctype") else withAction
  }

  /** The `<form>` attributes of `render_all`: defaults, then the form section of the
      configuration, then the form's user options, each overriding the one before;
      the action is forced, and the encoding type is dropped unless the method is
      exactly "post". */
  function FormAttributes(config: Dict, user: Dict, action: string): (r: Dict)
    ensures Get(r, "action") == Some(action)
    ensures HasKey(r, "enctype") <==> Layered(config, user, "method") == Some("post") && Layered(config, user, "enctype").Some?
    ensures HasKey(r, "enctype") ==> Get(r, "enctype") == Layered(config, user, "enctype")
    ensures forall k :: k != "action" && k != "enctype" ==> Get(r, k) == Layered(config, user, k)
  {
    var merged := Merge(Merge(DefaultFormParams, config), user);
    var r := ForceAction(merged, action);
    MergedLookup(config, user, "method");
    MergedLookup(config, user, "enctype");
    forall k | k != "action" && k != "enctype"
      ensures Get(r, k) == Layered(config, user, k)
    {
      MergedLookup(config, user, k);
    }
    r
  }

  /** The stock attributes: a post form keeps the url-encoded encoding type. */
  lemma DefaultFormAttributes(action: string)
    ensures Get(FormAttributes([], [], action), "enctype") == Some("application/x-www-form-urlencoded")
    ensures Get(FormAttributes([], [], action), "autocomplete") == Some("off")
  {
    var none: Dict := [];
    GetAt(DefaultFormParams, 0);
    GetAt(DefaultFormParams, 1);
    GetAt(DefaultFormParams, 2);
    assert Layered(none, none, "method") == Some("post");
    assert Layered(none, none, "enctype") == Some("application/x-www-form-urlencoded");
    assert Layered(none, none, "autocomplete") == Some("off");
  }

  /** A user option `method` of "get" removes the encoding type. */
  lemma GetFormHasNoEnctype(config: Dict, action: string)
    ensures !HasKey(FormAttributes(config, [("method", "get")], action), "enctype")
  {
    var user: Dict := [("method", "get")];
    assert HasKey(user, "method") by { assert user[0].0 == "method"; }
    assert Layered(config, user, "method") == Some("get");
  }

  // ---------------------------------------------------------------- the action

  /** The route of the current request: controller, action, then each parameter,
      joined by "/". */
  function RoutedAction(controller: string, actionName: string, params: seq<string>): (r: string)
    ensures |params| == 0 ==> r == controller + "/" + actionName
    ensures StartsWith(r, controller + "/" + actionName)
    ensures |params| > 0 ==> r == controller + "/" + actionName + "/" + Join("/", params)
  {
    var pieces := [controller, actionName] + params;
    var tail := [actionName] + params;
    var rest := if |params| == 0 then "" else "/" + Join("/", params);
    assert pieces[1..] == tail && tail[1..] == params;
    assert Join("/", tail) == actionName + rest;
    assert Join("/", pieces) == controller + "/" + (actionName + rest);
    assert Join("/", pieces) == controller + "/" + actionName + rest;
    PrefixOfConcat(controller + "/" + actionName, rest);
    Join("/", pieces)
  }

  /** When no parameter or name holds a "/", the route splits back into its parts. */
  lemma RoutedActionSplits(controller: string, actionName: string, params: seq<string>)
    requires '/' !in controller && '/' !in actionName
    requires forall i :: 0 <= i < |params| ==> '/' !in params[i]
    ensures Split(RoutedAction(controller, actionName, params), '/') == [controller, actionName] + params
  {
    var pieces := [controller, actionName] + params;
    forall i | 0 <= i < |pieces|
      ensures '/' !in pieces[i]
    {
      if i >= 2 {
        assert pieces[i] == params[i - 2];
      }
    }
    SplitJoin(pieces, '/');
  }

  /** The route as `render_all` builds it: controller, "/", action, then "/" and
      each parameter in turn. */
  method BuildRoute(controller: string, actionName: string, params: seq<string>) returns (route: string)
    ensures route == RoutedAction(controller, actionName, params)
  {
    route := controller + "/" + actionName;
    assert route == Join("/", [controller, actionName]) by {
      assert [controller, actionName][1..] == [actionName];
    }
    var k := 0;
    while k < |params|
      invariant 0 <= k <= |params|
      invariant route == Join("/", [controller, actionName] + params[..k])
    {
      JoinSnoc("/", [controller, actionName] + params[..k], params[k]);
      assert [controller, actionName] + params[..k + 1] == [controller, actionName] + params[..k] + [params[k]];
      route := route + "/" + params[k];
      k := k + 1;
    }
    assert params[..k] == params;
  }

  /** The form's own action when it is truthy, else the route. */
  function ResolveAction(f: FormState, routed: string): (r: string)
    ensures Truthy(f.action) ==> r == f.action
    ensures !Truthy(f.action) ==> r == routed
  {
    if Truthy(f.action) then f.action else routed
  }

  // ---------------------------------------------------------------- render_all

  /** What `render_all` prints for one element, followed by two separators; an
      array left by the steps prints as "Array". */
  function Block(content: Value): string {
    AsText(content) + Sep + Sep
  }

  /** `renderDecorated` on one element of the form, with the form's mode, style and
      default steps. */
  function Rendered(svc: Services, f: FormState, e: Element): (Element, Value) {
    RenderDecorated(svc, f.requiredStyle, f.confirm, DefaultDecorators(f.labelClass), e)
  }

  /** `renderDecorated` as the form applies it to each of its elements. */
  function Renderer(svc: Services, f: FormState): Element -> (Element, Value) {
    e => Rendered(svc, f, e)
  }

  /** The printed block of each element, in order, for a given renderer. */
  function BlocksOf(render: Element -> (Element, Value), es: seq<Element>): (r: seq<string>)
    ensures |r| == |es|
  {
    seq(|es|, i requires 0 <= i < |es| => Block(render(es[i]).1))
  }

  /** The printed block of every element of the form, in order. */
  function Blocks(svc: Services, f: FormState): (r: seq<string>)
    ensures |r| == |f.elements|
  {
    BlocksOf(Renderer(svc, f), f.elements)
  }

  /** The element loop of `render_all`: every element rendered in order, its
      markup followed by two separators; the elements come back as the render
      left them. */
  method RenderEach(render: Element -> (Element, Value), es: seq<Element>)
    returns (updated: seq<Element>, contentAll: string)
    ensures |updated| == |es|
    ensures forall i :: 0 <= i < |es| ==> updated[i] == render(es[i]).0
    ensures contentAll == Concat(BlocksOf(render, es))
  {
    ghost var blocks := BlocksOf(render, es);
    contentAll := "";
    updated := [];
    var k := 0;
    while k < |es|
      invariant 0 <= k <= |es|
      invariant |updated| == k
      invariant forall i :: 0 <= i < k ==> updated[i] == render(es[i]).0
      invariant contentAll == Concat(blocks[..k])
    {
      var rendered := render(es[k]);
      ConcatSnoc(blocks, k);
      contentAll := contentAll + Block(rendered.1);
      updated := updated + [rendered.0];
      k := k + 1;
    }
    assert blocks[..k] == blocks;
  }

  /** `render_all()`. The action is resolved (and stored), the default steps are
      rebuilt from the label class, and each element is rendered with the current
      mode's steps, in order; the output is the form tag, two separators, each
      element's markup followed by two separators, a separator, the close tag and
      a separator. The form comes back with its action set and its elements as
      the label steps left them. */
  method RenderAll(svc: Services, f: FormState, config: Dict,
                   controller: string, actionName: string, params: seq<string>,
                   formTag: Dict -> string, endForm: string)
    returns (g: FormState, output: string)
    ensures g == f.(action := ResolveAction(f, RoutedAction(controller, actionName, params)), elements := g.elements)
    ensures |g.elements| == |f.elements|
    ensures forall i :: 0 <= i < |f.elements| ==> g.elements[i] == Rendered(svc, f, f.elements[i]).0
    ensures output == formTag(FormAttributes(config, f.userOptions, ResolveAction(f, RoutedAction(controller, actionName, params))))
      + Sep + Sep + Concat(Blocks(svc, f)) + Sep + endForm + Sep
  {
    var routed := BuildRoute(controller, actionName, params);
    var action := ResolveAction(f, routed);
    output := formTag(FormAttributes(config, f.userOptions, action)) + Sep + Sep;
    var updated, contentAll := RenderEach(Renderer(svc, f), f.elements);
    output := output + contentAll + Sep + endForm + Sep;
    g := f.(action := action, elements := updated);
  }

  /** A form without elements prints only its tags and separators. */
  lemma EmptyFormOutput(svc: Services, f: FormState)
    requires |f.elements| == 0
    ensures Concat(Blocks(svc, f)) == ""
  {
    assert Blocks(svc, f) == [];
  }

  /** Rendering the form again, with the default steps, puts a second marker on
      every required element's label. */
  lemma RenderAllTwiceDoublesMarker(svc: Services, f: FormState, i: nat)
    requires i < |f.elements|
    requires IsRequired(f.elements[i])
    requires f.elements[i].userOptions.decorators.None? && f.elements[i].userOptions.decoratorsConfirm.None?
    ensures var d := DefaultDecorators(f.labelClass);
            var once := RenderDecorated(svc, f.requiredStyle, f.confirm, d, f.elements[i]).0;
            RenderDecorated(svc, f.requiredStyle, f.confirm, d, once).0.caption
            == f.elements[i].caption + Marker(MarkerStyle(f.requiredStyle)) + Marker(MarkerStyle(f.requiredStyle))
  {
    DefaultRenderTwice(svc, f.requiredStyle, f.confirm, f.labelClass, f.elements[i]);
  }
}
