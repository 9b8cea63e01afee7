/** The ViewHelper step (`_buildInput`): the element's control in normal mode, or
    in confirm mode a read-only summary of the sanitised value followed by a hidden
    input that submits it again. */
module Input {
  import opened Php
  import opened Assoc
  import opened Elements
  import opened Html
  import opened Placement
  import opened CustomElements

  // ---------------------------------------------------------------- the value shown

  /** The value the step works on: the `multi_values` user option joined with ","
      when it is an array, else the element's value. */
  function InputValue(e: Element): Value {
    match e.userOptions.multiValues
    case Some(Items(l)) => Scalar(Join(",", l))
    case _ => e.value
  }

  /** The sanitiser applied to the value (item by item for an array). */
  function Filtered(svc: Services, e: Element): (r: Value)
    ensures InputValue(e).Scalar? ==> r == Scalar(svc.sanitize(InputValue(e).text))
    ensures InputValue(e).Items? ==> r.Items? && |r.items| == |InputValue(e).items|
  {
    match InputValue(e)
    case Scalar(s) => Scalar(svc.sanitize(s))
    case Items(l) => Items(seq(|l|, i requires 0 <= i < |l| => svc.sanitize(l[i])))
  }

  // ---------------------------------------------------------------- hidden field name

  /** The name ends in "[]". */
  predicate EndsWithBrackets(name: string) {
    |name| >= 2 && name[|name| - 2] == '[' && name[|name| - 1] == ']'
  }

  /** The name ends in "[]" and a newline. */
  predicate EndsWithBracketsNewline(name: string) {
    |name| >= 3 && name[|name| - 3] == '[' && name[|name| - 2] == ']' && name[|name| - 1] == '\n'
  }

  /** `preg_replace('/\[\]$/', '', $name)`: one "[]" at the end removed. Without the
      D modifier `$` also matches just before a final newline, which stays. */
  function HiddenName(name: string): (r: string)
    ensures EndsWithBrackets(name) ==> r + "[]" == name
    ensures EndsWithBracketsNewline(name) ==> r == name[..|name| - 3] + "\n"
    ensures !EndsWithBrackets(name) && !EndsWithBracketsNewline(name) ==> r == name
  {
    if EndsWithBrackets(name) then
      assert name == name[..|name| - 2] + "[]";
      name[..|name| - 2]
    else if EndsWithBracketsNewline(name) then name[..|name| - 3] + "\n"
    else name
  }

  /** Exactly one trailing "[]" is removed: a name that ends in "[][]" keeps one. */
  lemma HiddenNameStripsOnce(n: string)
    ensures HiddenName(n + "[]") == n
    ensures HiddenName(n + "[][]") == n + "[]"
  {
    assert (n + "[]")[..|n + "[]"| - 2] == n;
    assert (n + "[][]")[..|n + "[][]"| - 2] == n + "[]";
  }

  // ---------------------------------------------------------------- Select labels

  /** `$opts[$v]`: the option label, or "" (PHP's null) for a value with no option. */
  function OptionLabel(opts: Dict, v: string): string {
    match Get(opts, v)
    case Some(l) => l
    case None => ""
  }

  /** The loop over the comma-split value: a label for every non-empty fragment, in order. */
  function DisplayLabels(opts: Dict, frags: seq<string>): (r: seq<string>)
    ensures |r| <= |frags|
  {
    if |frags| == 0 then []
    else (if |frags[0]| != 0 then [OptionLabel(opts, frags[0])] else []) + DisplayLabels(opts, frags[1..])
  }

  /** The labels of two runs of fragments are the labels of each run in turn. */
  lemma {:induction false} DisplayLabelsAppend(opts: Dict, a: seq<string>, b: seq<string>)
    ensures DisplayLabels(opts, a + b) == DisplayLabels(opts, a) + DisplayLabels(opts, b)
    decreases |a|
  {
    if |a| > 0 {
      assert (a + b)[1..] == a[1..] + b;
      DisplayLabelsAppend(opts, a[1..], b);
    } else {
      assert a + b == b;
    }
  }

  /** With no empty fragment, every fragment contributes its own label at its own position. */
  lemma {:induction false} DisplayLabelsAll(opts: Dict, frags: seq<string>)
    requires forall i :: 0 <= i < |frags| ==> |frags[i]| != 0
    ensures DisplayLabels(opts, frags) == seq(|frags|, i requires 0 <= i < |frags| => OptionLabel(opts, frags[i]))
    decreases |frags|
  {
    if |frags| > 0 {
      DisplayLabelsAll(opts, frags[1..]);
    }
  }

  /** The text a confirm-mode Select shows: the labels joined with ",". An array
      cannot be split (PHP 7 gives null), so it shows nothing. */
  function SelectDisplay(opts: Dict, filtered: Value): (r: string)
    ensures filtered.Items? ==> r == ""
    ensures filtered == Scalar("") ==> r == ""
    ensures filtered.Scalar? && ',' !in filtered.text && |filtered.text| > 0 ==> r == OptionLabel(opts, filtered.text)
  {
    match filtered
    case Scalar(s) => Join(",", DisplayLabels(opts, Split(s, ',')))
    case Items(_) => ""
  }

  /** When each fragment of the value is an option labelled with itself and none is
      empty, the display is the value itself: split and join are inverse. */
  lemma SelectDisplaySelfLabelled(opts: Dict, s: string)
    requires forall i :: 0 <= i < |Split(s, ',')| ==>
      |Split(s, ',')[i]| != 0 && Get(opts, Split(s, ',')[i]) == Some(Split(s, ',')[i])
    ensures SelectDisplay(opts, Scalar(s)) == s
  {
    var frags := Split(s, ',');
    DisplayLabelsAll(opts, frags);
    assert DisplayLabels(opts, frags) == frags;
    JoinSplit(s, ',');
  }

  /** "1,2" splits into "1" and "2". */
  lemma SplitExample()
    ensures Split("1,2", ',') == ["1", "2"]
  {
    var s := "1,2";
    SplitAt(s, ',', 1);
    assert s[..1] == "1" && s[2..] == "2";
    assert Split("2", ',') == ["2"];
  }

  /** The options label "1" and "2" as "Red" and "Blue". */
  lemma LabelsExample()
    ensures DisplayLabels([("1", "Red"), ("2", "Blue")], ["1", "2"]) == ["Red", "Blue"]
  {
    var opts: Dict := [("1", "Red"), ("2", "Blue")];
    GetAt(opts, 0);
    GetAt(opts, 1);
    DisplayLabelsAll(opts, ["1", "2"]);
  }

  /** Options {"1": "Red", "2": "Blue"} and value "1,2" display "Red,Blue". */
  lemma SelectDisplayExample()
    ensures SelectDisplay([("1", "Red"), ("2", "Blue")], Scalar("1,2")) == "Red,Blue"
  {
    SplitExample();
    LabelsExample();
    var labels := ["Red", "Blue"];
    assert Join(",", labels) == "Red" + "," + Join(",", ["Blue"]);
  }

  /** Empty fragments (from ",," or a leading or trailing ",") contribute nothing. */
  lemma DisplayLabelsSkipEmpty(opts: Dict, a: seq<string>, b: seq<string>)
    ensures DisplayLabels(opts, a + [""] + b) == DisplayLabels(opts, a + b)
  {
    DisplayLabelsAppend(opts, a + [""], b);
    DisplayLabelsAppend(opts, a, [""]);
    DisplayLabelsAppend(opts, a, b);
    assert DisplayLabels(opts, [""]) == [] by {
      assert [""][1..] == [];
    }
  }

  // ---------------------------------------------------------------- confirm mode

  const MaskedPassword: string := Static("********")

  /** The confirm branch of `_buildInput`, by element class. Hidden and Submit render
      as in normal mode; Password shows a fixed mask; TextArea shows the value through
      `nl2br`; Select shows option labels; every other class, the application's own
      included, shows the value. All but Hidden and Submit end with a hidden input
      carrying the sanitised value; Password and TextArea keep the element name,
      the others drop one trailing "[]". */
  function ConfirmOutput(svc: Services, e: Element, attrs: Dict, filtered: Value): (r: string)
    ensures e.kind in {Hidden, Submit} ==> r == svc.render(e, attrs)
    ensures e.kind == Password ==> r == MaskedPassword + HiddenInput(e.name, AsText(filtered))
    ensures e.kind == TextArea ==>
      r == Static(if filtered.Scalar? then svc.nl2br(filtered.text) else "") + HiddenInput(e.name, AsText(filtered))
    ensures e.kind == Select ==>
      r == Static(SelectDisplay(e.options, filtered)) + HiddenInput(HiddenName(e.name), AsText(filtered))
    ensures e.kind !in {Hidden, Submit, Password, TextArea, Select} ==>
      r == Static(AsText(filtered)) + HiddenInput(HiddenName(e.name), AsText(filtered))
  {
    match e.kind
    case Hidden => svc.render(e, attrs)
    case Submit => svc.render(e, attrs)
    case Password => MaskedPassword + HiddenInput(e.name, AsText(filtered))
    case TextArea =>
      var shown := match filtered case Scalar(s) => svc.nl2br(s) case Items(_) => "";
      Static(shown) + HiddenInput(e.name, AsText(filtered))
    case Select =>
      Static(SelectDisplay(e.options, filtered)) + HiddenInput(HiddenName(e.name), AsText(filtered))
    case _ =>
      Static(AsText(filtered)) + HiddenInput(HiddenName(e.name), AsText(filtered))
  }

  /** A confirmed password shows the same mask whatever its value; the sanitised
      value appears only as the value of the hidden input that follows. */
  lemma PasswordNeverShown(svc: Services, e: Element, attrs: Dict, v: Value, w: Value)
    requires e.kind == Password
    ensures StartsWith(ConfirmOutput(svc, e, attrs, v), MaskedPassword)
    ensures ConfirmOutput(svc, e, attrs, v)[..|MaskedPassword|] == ConfirmOutput(svc, e, attrs, w)[..|MaskedPassword|]
    ensures ConfirmOutput(svc, e, attrs, v)[|MaskedPassword|..] == HiddenInput(e.name, AsText(v))
  {
    PrefixOfConcat(MaskedPassword, HiddenInput(e.name, AsText(v)));
    PrefixOfConcat(MaskedPassword, HiddenInput(e.name, AsText(w)));
  }

  // ---------------------------------------------------------------- normal mode

  /** An element's own `render($attributes)`: the application's elements are
      modelled, the framework's are a service. */
  function ElementRender(svc: Services, e: Element, attrs: Dict): (r: string)
    ensures e.kind == AppButton ==> r == ButtonRender(e, attrs)
    ensures e.kind == AppCheck ==> r == CheckRender(e, attrs)
    ensures e.kind == AppRaw ==> r == RawRender(e)
    ensures e.kind == AppRadio ==> r == RadioRender(e, attrs)
    ensures e.kind == AppMultiCheck ==> r == MultiCheckRender(e)
    ensures e.kind !in {AppButton, AppCheck, AppRaw, AppRadio, AppMultiCheck} ==> r == svc.render(e, attrs)
  {
    match e.kind
    case AppButton => ButtonRender(e, attrs)
    case AppCheck => CheckRender(e, attrs)
    case AppRaw => RawRender(e)
    case AppRadio => RadioRender(e, attrs)
    case AppMultiCheck => MultiCheckRender(e)
    case _ => svc.render(e, attrs)
  }

  /** `Raw` prints its value whatever the attributes or services; the framework's
      classes are drawn by the framework. */
  lemma ElementRenderDispatch(svc: Services, other: Services, e: Element, attrs: Dict, attrs2: Dict)
    ensures e.kind == AppRaw ==> ElementRender(svc, e, attrs) == ElementRender(other, e, attrs2) == AsText(e.value)
    ensures e.kind in {Text, Hidden, Submit, Password, TextArea, Select, Check, Radio} ==>
      ElementRender(svc, e, attrs) == svc.render(e, attrs)
  {
  }

  /** One option of `_renderAsRadio`. */
  function AsRadioInput(name: string, op: (string, string), on: bool, attrs: string): string {
    "<label>" + Eol
    + "  <input type=\"radio\" name=\"" + name + "\" value=\"" + op.0 + "\"" + Mark(on) + attrs + ">" + op.1
    + Eol + "</label>" + Eol
  }

  function AsRadioInputs(e: Element, attrs: Dict): seq<string> {
    seq(|e.options|, i requires 0 <= i < |e.options| =>
      AsRadioInput(e.name, e.options[i], IsChosen(e.options[i].0, e.value), AttrString(attrs)))
  }

  /** `_renderAsRadio($element, $attributes, $content)`: the accumulated content,
      then one radio per option in order, the one equal to the value checked. Each
      option appends with `.=`, so the content becomes a string; with no options it
      is returned as it came, an array included. */
  function RenderAsRadio(e: Element, attrs: Dict, content: Value): (r: Value)
    ensures |e.options| == 0 ==> r == content
    ensures |e.options| > 0 ==> r.Scalar? && StartsWith(r.text, AsText(content))
    ensures |e.options| > 0 ==> r.text[|AsText(content)|..] == Concat(AsRadioInputs(e, attrs))
  {
    if |e.options| == 0 then content
    else
      PrefixOfConcat(AsText(content), Concat(AsRadioInputs(e, attrs)));
      Scalar(AsText(content) + Concat(AsRadioInputs(e, attrs)))
  }

  /** The values `_renderAsCheckbox` ticks: the `multi_values` user option, a
      scalar wrapped in an array, nothing when it is unset. */
  function TickedValues(e: Element): seq<string> {
    match e.userOptions.multiValues
    case None => []
    case Some(Items(l)) => l
    case Some(Scalar(s)) => [s]
  }

  /** The attribute keys `_renderAsCheckbox` does not copy. Its test is PHP 7's loose
      `$k != 'class'`: an integer key is compared with "class" as a number, and
      "class" converts to 0, so the key 0 (that of a first attribute given without
      a name) is copied as well as "class". */
  predicate CheckboxSkips(k: string) {
    k != "class" && k != "0"
  }

  /** The attributes copied onto every checkbox, in attribute order. */
  function ClassAttr(attrs: Dict): string {
    AttrString(Kept(attrs, CheckboxSkips))
  }

  /** A pair is copied onto the checkboxes exactly when it is an attribute whose key
      is "class" or the integer key 0. */
  lemma ClassAttrCopies(attrs: Dict, p: (string, string))
    ensures p in Kept(attrs, CheckboxSkips) <==> p in attrs && (p.0 == "class" || p.0 == "0")
  {
    KeptMembers(attrs, CheckboxSkips, p);
  }

  /** A nameless first attribute is copied after the class: `['class' => 'c',
      'required']` prints `class="c" 0="required" ` in each checkbox. */
  lemma ClassAttrZeroKeyExample()
    ensures ClassAttr([("class", "c"), ("0", "required")]) == "class=\"c\" 0=\"required\" "
  {
    var attrs: seq<(string, string)> := [("class", "c"), ("0", "required")];
    KeepsClassAndZero();
    assert attrs == [("class", "c")] + [("0", "required")];
    AttrStringAppend([("class", "c")], [("0", "required")]);
    AttrStringSingle(("class", "c"));
    AttrStringSingle(("0", "required"));
    PairText("class", "c", "class=\"c\" ");
    PairText("0", "required", "0=\"required\" ");
    ZeroKeyText();
  }

  lemma KeepsClassAndZero()
    ensures Kept([("class", "c"), ("0", "required")], CheckboxSkips) == [("class", "c"), ("0", "required")]
  {
    var attrs: seq<(string, string)> := [("class", "c"), ("0", "required")];
    assert attrs[..1] == [("class", "c")];
    assert attrs[..1][..0] == [];
  }

  lemma ZeroKeyText()
    ensures "class=\"c\" " + "0=\"required\" " == "class=\"c\" 0=\"required\" "
  {
  }

  /** The printed form of one copied attribute. */
  lemma PairText(k: string, v: string, text: string)
    requires text == k + "=\"" + v + "\" "
    ensures Pair((k, v)) + " " == text
  {
  }

  /** Any other attribute, an id here, is not copied. */
  lemma ClassAttrSkipsIdExample()
    ensures ClassAttr([("id", "x"), ("class", "c")]) == "class=\"c\" "
  {
    var attrs: seq<(string, string)> := [("id", "x"), ("class", "c")];
    assert attrs[..1] == [("id", "x")];
    assert attrs[..1][..0] == [];
    assert Kept(attrs, CheckboxSkips) == [("class", "c")];
    AttrStringSingle(("class", "c"));
    PairText("class", "c", "class=\"c\" ");
  }

  /** One option of `_renderAsCheckbox`. */
  function AsCheckboxInput(name: string, op: (string, string), on: bool, cls: string): string {
    "<div class=\"form-check form-check-inline\">" + Eol
    + "<label class=\"form-check-label\">" + Eol
    + "  <input type=\"checkbox\" name=\"" + name + "\" value=\"" + op.0 + "\" " + cls + Mark(on) + ">" + op.1
    + Eol + "</label>" + Eol
    + "</div>"
  }

  function AsCheckboxInputs(e: Element, attrs: Dict): seq<string> {
    seq(|e.options|, i requires 0 <= i < |e.options| =>
      AsCheckboxInput(e.name, e.options[i], e.options[i].0 in TickedValues(e), ClassAttr(attrs)))
  }

  const ColumnOpen: string := "<div class=\"col-sm-6 pl-0\">" + Eol

  /** `_renderAsCheckbox($element, $attributes, $content)`: the accumulated content,
      a column, one checkbox per option in order (ticked when its key is among the
      `multi_values`), and the closing div. */
  function RenderAsCheckbox(e: Element, attrs: Dict, content: string): (r: string)
    ensures StartsWith(r, content + ColumnOpen)
    ensures r[|content + ColumnOpen|..] == Concat(AsCheckboxInputs(e, attrs)) + Eol + "</div>" + Eol
  {
    var rest := Concat(AsCheckboxInputs(e, attrs)) + Eol + "</div>" + Eol;
    PrefixOfConcat(content + ColumnOpen, rest);
    content + ColumnOpen + rest
  }

  /** Option i of `_renderAsRadio` is checked exactly when its key equals the value,
      so at most one option is. */
  lemma AsRadioCheckedIffChosen(e: Element, attrs: Dict, i: nat)
    requires i < |e.options|
    ensures AsRadioInputs(e, attrs)[i] == AsRadioInput(e.name, e.options[i], true, AttrString(attrs))
            <==> IsChosen(e.options[i].0, e.value)
  {
    var x := AsRadioInput(e.name, e.options[i], true, AttrString(attrs));
    var y := AsRadioInput(e.name, e.options[i], false, AttrString(attrs));
    assert |x| == |y| + |CheckedMark|;
  }

  /** Option i of `_renderAsCheckbox` is ticked exactly when its key is among the
      `multi_values`. */
  lemma AsCheckboxTickedIffAmong(e: Element, attrs: Dict, i: nat)
    requires i < |e.options|
    ensures AsCheckboxInputs(e, attrs)[i] == AsCheckboxInput(e.name, e.options[i], true, ClassAttr(attrs))
            <==> e.options[i].0 in TickedValues(e)
  {
    var x := AsCheckboxInput(e.name, e.options[i], true, ClassAttr(attrs));
    var y := AsCheckboxInput(e.name, e.options[i], false, ClassAttr(attrs));
    assert |x| == |y| + |CheckedMark|;
  }

  /** The normal branch: a framework Select flagged `is_radio` or `is_checkbox` is
      drawn by the form itself, starting from the accumulated content (`is_radio`
      winning); every other element by its own `render`, which never sees the
      content. */
  function NormalOutput(svc: Services, e: Element, attrs: Dict, content: Value): (r: Value)
    ensures e.kind == Select && e.userOptions.isRadio ==> r == RenderAsRadio(e, attrs, content)
    ensures e.kind == Select && !e.userOptions.isRadio && e.userOptions.isCheckbox ==>
      r == Scalar(RenderAsCheckbox(e, attrs, AsText(content)))
    ensures !(e.kind == Select && (e.userOptions.isRadio || e.userOptions.isCheckbox)) ==>
      r == Scalar(ElementRender(svc, e, attrs))
  {
    if e.kind == Select && e.userOptions.isRadio then RenderAsRadio(e, attrs, content)
    else if e.kind == Select && e.userOptions.isCheckbox then Scalar(RenderAsCheckbox(e, attrs, AsText(content)))
    else Scalar(ElementRender(svc, e, attrs))
  }

  // ---------------------------------------------------------------- the step

  /** `_buildInput($element, $options, $content)`: the step's output joined to the
      content by the step's placement. Under `raw_value` the output is the sanitised
      value itself, an array staying an array (so appending it to a PHP-empty
      content passes the array on); otherwise it is the normal or confirm branch. */
  function BuildInput(svc: Services, confirm: bool, e: Element, opts: StepOptions, content: Value): (r: Value)
    ensures opts.rawValue ==> r == Concatenate(Filtered(svc, e), content, PlacementOf(opts))
    ensures !opts.rawValue && confirm ==>
      r == Concatenate(Scalar(ConfirmOutput(svc, e, e.attributes, Filtered(svc, e))), content, PlacementOf(opts))
    ensures !opts.rawValue && !confirm ==>
      r == Concatenate(NormalOutput(svc, e, e.attributes, content), content, PlacementOf(opts))
  {
    var attrs := e.attributes;
    var filtered := Filtered(svc, e);
    var output :=
      if opts.rawValue then filtered
      else if !confirm then NormalOutput(svc, e, attrs, content)
      else Scalar(ConfirmOutput(svc, e, attrs, filtered));
    Concatenate(output, content, PlacementOf(opts))
  }

  /** An array value under `raw_value`, appended to a PHP-empty content, is passed
      on as the (sanitised) array itself, not as the string "Array". */
  lemma RawArrayPassesOn(svc: Services, confirm: bool, e: Element, opts: StepOptions, content: Value)
    requires opts.rawValue && PlacementOf(opts) != "PREPEND" && !ValueTruthy(content)
    requires InputValue(e).Items?
    ensures BuildInput(svc, confirm, e, opts, content).Items?
    ensures |BuildInput(svc, confirm, e, opts, content).items| == |InputValue(e).items|
  {
  }

  /** `raw_value` prints the sanitised value in either mode; Hidden and Submit
      elements render the same in either mode. */
  lemma ModeIndependence(svc: Services, e: Element, opts: StepOptions, content: Value)
    requires opts.rawValue || e.kind == Hidden || e.kind == Submit
    ensures BuildInput(svc, true, e, opts, content) == BuildInput(svc, false, e, opts, content)
  {
    if !opts.rawValue {
      assert ConfirmOutput(svc, e, e.attributes, Filtered(svc, e)) == svc.render(e, e.attributes);
      assert NormalOutput(svc, e, e.attributes, content) == Scalar(ElementRender(svc, e, e.attributes));
      assert ElementRender(svc, e, e.attributes) == svc.render(e, e.attributes);
    }
  }

  /** `_renderAsRadio` already starts from the accumulated content and the step joins
      that content again, so appending to a non-empty content prints it twice. */
  lemma AsRadioRepeatsContent(svc: Services, e: Element, opts: StepOptions, content: string)
    requires e.kind == Select && e.userOptions.isRadio && !opts.rawValue
    requires PlacementOf(opts) == "APPEND" && !IsEmpty(content)
    ensures BuildInput(svc, false, e, opts, Scalar(content)).Scalar?
    ensures StartsWith(BuildInput(svc, false, e, opts, Scalar(content)).text, content + Sep + content)
  {
    var out := RenderAsRadio(e, e.attributes, Scalar(content));
    var r := BuildInput(svc, false, e, opts, Scalar(content));
    AppendShape(out, Scalar(content));
    assert r == Scalar(content + Sep + AsText(out));
    assert AsText(out) == content + AsText(out)[|content|..];
    PrefixOfConcat(content + Sep + content, AsText(out)[|content|..]);
  }
}
