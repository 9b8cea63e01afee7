/** `renderDecorated`: a left fold of an element's decorator steps over the
    content, starting from "". The content is a PHP value: a raw ViewHelper step
    can leave an array in it, which later steps read as PHP does. The Label step
    may change the element (its label text), and later steps see the changed
    element. */
module Pipeline {
  import opened Php
  import opened Assoc
  import opened Elements
  import opened Placement
  import opened Decorators
  import opened Input

  /** The two default step lists `_buildDefaultDecorator` builds. */
  datatype Defaults = Defaults(normal: seq<Step>, confirm: seq<Step>)

  /** `_buildDefaultDecorator()`: input, errors, a prepended label with the form's
      label class, and a wrapping div; the confirm list is the same as the normal one. */
  function DefaultDecorators(labelClass: string): (d: Defaults)
    ensures d.normal == d.confirm
    ensures |d.normal| == 4
    ensures d.normal[0] == Bare("ViewHelper") && d.normal[1] == Bare("Errors")
    ensures d.normal[2].name == "Label" && PlacementOf(OptionsOf(d.normal[2])) == "PREPEND"
    ensures d.normal[3].name == "HtmlTag" && IsFullWrap(OptionsOf(d.normal[3])) && OptionsOf(d.normal[3]).tag == "div"
  {
    var steps := [
      Bare("ViewHelper"),
      Bare("Errors"),
      Entry("Label", Some(StepOptions(Some("PREPEND"), [("class", labelClass)], "", false, false, false))),
      Entry("HtmlTag", Some(StepOptions(None, [("class", "form-group row")], "div", false, false, false)))
    ];
    Defaults(steps, steps)
  }

  /** `getDecorators($element)`: in confirm mode the element's `decorators_confirm`
      user option, else its `decorators` option, each falling back to the form's
      default list for that mode. */
  function GetDecorators(confirm: bool, e: Element, d: Defaults): (steps: seq<Step>)
    ensures confirm && e.userOptions.decoratorsConfirm.Some? ==> steps == e.userOptions.decoratorsConfirm.value
    ensures confirm && e.userOptions.decoratorsConfirm.None? ==> steps == d.confirm
    ensures !confirm && e.userOptions.decorators.Some? ==> steps == e.userOptions.decorators.value
    ensures !confirm && e.userOptions.decorators.None? ==> steps == d.normal
  {
    var option := if confirm then e.userOptions.decoratorsConfirm else e.userOptions.decorators;
    match option
    case Some(steps) => steps
    case None => if confirm then d.confirm else d.normal
  }

  /** The step types the renderer knows. */
  predicate IsKnownStep(name: string) {
    name in {"Label", "ViewHelper", "HtmlTag", "Errors"}
  }

  /** The element after one step: only a Label step changes it. */
  function NextElement(style: Option<string>, step: Step, e: Element): Element {
    if step.name == "Label" then LabelledElement(style, e, OptionsOf(step)) else e
  }

  /** The Label steps of a list that append the marker to an element of this kind
      (all but the wrapping ones). */
  function MarkingSteps(kind: Kind, steps: seq<Step>): nat {
    if |steps| == 0 then 0
    else
      var marks := steps[0].name == "Label" && !KindWrapsLabel(kind, OptionsOf(steps[0]));
      (if marks then 1 else 0) + MarkingSteps(kind, steps[1..])
  }

  /** `n` copies of `s`. */
  function Repeat(s: string, n: nat): string {
    if n == 0 then "" else s + Repeat(s, n - 1)
  }

  /** The element after a whole step list, ignoring the markup. Only the label text
      changes: a required element's label gains one marker for each non-wrapping
      Label step, and any other element stays as it was. */
  function ElementAfter(style: Option<string>, steps: seq<Step>, e: Element): (r: Element)
    ensures r == e.(caption := r.caption)
    ensures !IsRequired(e) ==> r == e
    ensures IsRequired(e) ==>
      r.caption == e.caption + Repeat(Marker(MarkerStyle(style)), MarkingSteps(e.kind, steps))
    decreases |steps|
  {
    if |steps| == 0 then
      assert e.caption + "" == e.caption;
      e
    else
      var next := NextElement(style, steps[0], e);
      var r := ElementAfter(style, steps[1..], next);
      var marks := steps[0].name == "Label" && !WrapsLabel(e, OptionsOf(steps[0]));
      assert IsRequired(e) ==>
        r.caption == e.caption + Repeat(Marker(MarkerStyle(style)), MarkingSteps(e.kind, steps)) by {
        if IsRequired(e) {
          assert IsRequired(next) && next.kind == e.kind;
          MarkerCount(e.caption, next.caption, r.caption, Marker(MarkerStyle(style)),
            MarkingSteps(e.kind, steps[1..]), marks);
        }
      }
      r
  }

  /** One step's marker followed by the rest's markers are the markers of the whole run. */
  lemma MarkerCount(c0: string, c1: string, c2: string, m: string, n: nat, marks: bool)
    requires c1 == c0 + (if marks then m else "")
    requires c2 == c1 + Repeat(m, n)
    ensures c2 == c0 + Repeat(m, (if marks then 1 else 0) + n)
  {
    if marks {
      assert Repeat(m, n + 1) == m + Repeat(m, n);
    } else {
      assert c1 == c0;
    }
  }

  /** One turn of the loop in `renderDecorated`. An unknown type appends
      `<p>type</p>` to the content; the element changes as `NextElement` says. */
  function ApplyStep(svc: Services, style: Option<string>, confirm: bool, step: Step, st: (Element, Value)): (r: (Element, Value))
    ensures r.0 == NextElement(style, step, st.0)
    ensures !IsKnownStep(step.name) ==> r == (st.0, Scalar(AsText(st.1) + "<p>" + step.name + "</p>"))
  {
    var (e, content) := st;
    var opts := OptionsOf(step);
    match step.name
    case "Label" => BuildLabel(svc, style, e, opts, content)
    case "ViewHelper" => (e, BuildInput(svc, confirm, e, opts, content))
    case "HtmlTag" => (e, WrapContent(opts, content))
    case "Errors" => (e, BuildError(e, content))
    case _ => (e, Scalar(AsText(content) + "<p>" + step.name + "</p>"))
  }

  /** The loop of `renderDecorated` over a step list, from a given state: the
      element it leaves is the one `ElementAfter` describes. */
  function RunSteps(svc: Services, style: Option<string>, confirm: bool, steps: seq<Step>, st: (Element, Value)): (r: (Element, Value))
    ensures r.0 == ElementAfter(style, steps, st.0)
    decreases |steps|
  {
    if |steps| == 0 then st
    else RunSteps(svc, style, confirm, steps[1..], ApplyStep(svc, style, confirm, steps[0], st))
  }

  /** `renderDecorated($element)`: the element's steps for the current mode, folded
      over "" (so an element with no steps prints ""); also returns the element as
      the call leaves it, which differs from the argument at most in its label
      text. */
  function RenderDecorated(svc: Services, style: Option<string>, confirm: bool, d: Defaults, e: Element): (r: (Element, Value))
    ensures |GetDecorators(confirm, e, d)| == 0 ==> r.1 == Scalar("")
    ensures r.0 == ElementAfter(style, GetDecorators(confirm, e, d), e)
    ensures r.0 == e.(caption := r.0.caption)
    ensures !IsRequired(e) ==> r.0 == e
  {
    RunSteps(svc, style, confirm, GetDecorators(confirm, e, d), (e, Scalar("")))
  }

  /** Running two step lists one after the other is running their concatenation. */
  lemma {:induction false} RunStepsAppend(svc: Services, style: Option<string>, confirm: bool, a: seq<Step>, b: seq<Step>, st: (Element, Value))
    ensures RunSteps(svc, style, confirm, a + b, st) == RunSteps(svc, style, confirm, b, RunSteps(svc, style, confirm, a, st))
    decreases |a|
  {
    if |a| == 0 {
      assert a + b == b;
    } else {
      assert (a + b)[0] == a[0];
      assert (a + b)[1..] == a[1..] + b;
      RunStepsAppend(svc, style, confirm, a[1..], b, ApplyStep(svc, style, confirm, a[0], st));
    }
  }

  /** A last step of unknown type appends exactly `<p>type</p>` to what the earlier
      steps produced. */
  lemma UnknownStepAppends(svc: Services, style: Option<string>, confirm: bool, steps: seq<Step>, step: Step, st: (Element, Value))
    requires !IsKnownStep(step.name)
    ensures RunSteps(svc, style, confirm, steps + [step], st).1
            == Scalar(AsText(RunSteps(svc, style, confirm, steps, st).1) + "<p>" + step.name + "</p>")
  {
    RunStepsAppend(svc, style, confirm, steps, [step], st);
    assert [step][1..] == [];
  }

  /** A bare step, an array step whose options are missing or null, and one with an
      empty options array all do the same. */
  lemma BareStepHasNoOptions(svc: Services, style: Option<string>, confirm: bool, name: string, st: (Element, Value))
    ensures ApplyStep(svc, style, confirm, Bare(name), st) == ApplyStep(svc, style, confirm, Entry(name, None), st)
    ensures ApplyStep(svc, style, confirm, Bare(name), st) == ApplyStep(svc, style, confirm, Entry(name, Some(NoOptions)), st)
  {
  }

  /** One render with the default steps appends one marker to a required
      element's label. */
  lemma DefaultRenderAddsMarker(svc: Services, style: Option<string>, confirm: bool, labelClass: string, e: Element)
    requires IsRequired(e)
    requires e.userOptions.decorators.None? && e.userOptions.decoratorsConfirm.None?
    ensures RenderDecorated(svc, style, confirm, DefaultDecorators(labelClass), e).0.caption == e.caption + Marker(MarkerStyle(style))
  {
    var d := DefaultDecorators(labelClass);
    var steps := d.normal;
    assert GetDecorators(confirm, e, d) == steps;
    assert MarkingSteps(e.kind, steps[4..]) == 0;
    assert MarkingSteps(e.kind, steps[3..]) == 0 by { assert steps[3..][1..] == steps[4..]; }
    assert MarkingSteps(e.kind, steps[2..]) == 1 by { assert steps[2..][1..] == steps[3..]; }
    assert MarkingSteps(e.kind, steps[1..]) == 1 by { assert steps[1..][1..] == steps[2..]; }
    assert MarkingSteps(e.kind, steps) == 1;
    var m := Marker(MarkerStyle(style));
    assert Repeat(m, 1) == m + "";
  }

  /** Rendering a required element twice with the default steps leaves two markers
      on its label: the marker is not added once and for all. */
  lemma DefaultRenderTwice(svc: Services, style: Option<string>, confirm: bool, labelClass: string, e: Element)
    requires IsRequired(e)
    requires e.userOptions.decorators.None? && e.userOptions.decoratorsConfirm.None?
    ensures RenderDecorated(svc, style, confirm, DefaultDecorators(labelClass),
              RenderDecorated(svc, style, confirm, DefaultDecorators(labelClass), e).0).0.caption
            == e.caption + Marker(MarkerStyle(style)) + Marker(MarkerStyle(style))
  {
    var d := DefaultDecorators(labelClass);
    DefaultRenderAddsMarker(svc, style, confirm, labelClass, e);
    var once := RenderDecorated(svc, style, confirm, d, e).0;
    assert once.userOptions == e.userOptions && once.attributes == e.attributes;
    DefaultRenderAddsMarker(svc, style, confirm, labelClass, once);
  }

  /** The raw options of a ViewHelper step, and a bare div. */
  const RawOptions: StepOptions := NoOptions.(rawValue := true)
  const DivOptions: StepOptions := NoOptions.(tag := "div")

  /** An empty array value printed raw and then wrapped in a div gives an empty
      div: the raw step passes the array on, and the wrap finds it PHP-empty. */
  lemma RawEmptyArrayInDiv(svc: Services, style: Option<string>, confirm: bool, e: Element)
    requires e.value == Items([]) && !(e.userOptions.multiValues.Some? && e.userOptions.multiValues.value.Items?)
    ensures RunSteps(svc, style, confirm, [Entry("ViewHelper", Some(RawOptions)), Entry("HtmlTag", Some(DivOptions))],
                     (e, Scalar(""))).1
            == Scalar("<div >\n</div>")
  {
    var steps := [Entry("ViewHelper", Some(RawOptions)), Entry("HtmlTag", Some(DivOptions))];
    assert InputValue(e) == Items([]);
    var raw := ApplyStep(svc, style, confirm, steps[0], (e, Scalar("")));
    assert raw.1 == Concatenate(Filtered(svc, e), Scalar(""), "APPEND");
    assert raw.1 == Items([]) by {
      assert !ValueTruthy(Scalar(""));
      assert Filtered(svc, e).Items? && |Filtered(svc, e).items| == 0;
    }
    var wrapped := ApplyStep(svc, style, confirm, steps[1], raw);
    assert wrapped.1 == WrapContent(DivOptions, Items([]));
    WrapEmptyArrayExample();
    assert steps[1..][0] == steps[1] && steps[1..][1..] == [];
    assert RunSteps(svc, style, confirm, steps[1..], raw) == wrapped;
    assert RunSteps(svc, style, confirm, steps, (e, Scalar(""))) == RunSteps(svc, style, confirm, steps[1..], raw);
  }
}
