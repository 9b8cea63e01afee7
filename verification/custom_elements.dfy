/** The application's own elements (`Application\Forms\Element`): each renders its
    markup from its name, value, attributes, label and options. */
module CustomElements {
  import opened Php
  import opened Assoc
  import opened Elements
  import opened Html

  // ---------------------------------------------------------------- Button

  /** Attribute keys `Button::render` never copies onto the tag. */
  predicate ButtonSkips(k: string) {
    IsNumeric(k) || k in {"id", "name", "placeholder", "type"}
  }

  /** The `type` attribute, "submit" when unset. */
  function ButtonType(attrs: Dict): string {
    match Get(attrs, "type")
    case Some(t) => t
    case None => "submit"
  }

  predicate IsReset(attrs: Dict) {
    ToLower(ButtonType(attrs)) == "reset"
  }

  /** The button text: the label, or the value when the label is "" or "0". */
  function ButtonText(e: Element): string {
    if Truthy(e.caption) then e.caption else AsText(e.value)
  }

  /** The opening of the button tag up to its value: a reset button has no name,
      a submit button is named "action". */
  function ButtonOpen(e: Element, attrs: Dict): string {
    if IsReset(attrs) then "<button type=\"reset\" value=\"" + AsText(e.value) + "\""
    else "<button type=\"submit\" name=\"action\" value=\"" + AsText(e.value) + "\""
  }

  /** `Button::render($attributes)`: the opening, the copied attributes, then the
      button text. The element's own name is never printed. */
  function ButtonRender(e: Element, attrs: Dict): (r: string)
    ensures IsReset(attrs) ==> StartsWith(r, "<button type=\"reset\" value=\"" + AsText(e.value) + "\"")
    ensures !IsReset(attrs) ==> StartsWith(r, "<button type=\"submit\" name=\"action\" value=\"" + AsText(e.value) + "\"")
    ensures r[|ButtonOpen(e, attrs)|..] == AttrList(Kept(attrs, ButtonSkips)) + ">" + ButtonText(e) + "</button>"
  {
    var rest := AttrList(Kept(attrs, ButtonSkips)) + ">" + ButtonText(e) + "</button>";
    PrefixOfConcat(ButtonOpen(e, attrs), rest);
    ButtonOpen(e, attrs) + rest
  }

  /** Every button of a form submits under the one name "action": renaming the
      element changes nothing, and no copied attribute is an id, name, placeholder,
      type or numeric key. */
  lemma ButtonIgnoresName(e: Element, attrs: Dict, n: string)
    ensures ButtonRender(e.(name := n), attrs) == ButtonRender(e, attrs)
    ensures forall p :: p in Kept(attrs, ButtonSkips) <==> p in attrs && !ButtonSkips(p.0)
  {
    forall p
      ensures p in Kept(attrs, ButtonSkips) <==> p in attrs && !ButtonSkips(p.0)
    {
      KeptMembers(attrs, ButtonSkips, p);
    }
  }

  /** A `type` attribute of "reset" in any letter case makes a reset button; no
      type attribute makes a submit button. */
  lemma ButtonKind(attrs: Dict)
    ensures Get(attrs, "type") == Some("RESET") ==> IsReset(attrs)
    ensures Get(attrs, "type") == Some("Reset") ==> IsReset(attrs)
    ensures Get(attrs, "type").None? ==> !IsReset(attrs)
  {
    assert ToLower("RESET") == "reset";
    assert ToLower("Reset") == "reset";
    assert ToLower("submit") == "submit";
  }

  // ---------------------------------------------------------------- Check

  /** Attribute keys `Check::render` never copies onto the checkbox. */
  predicate CheckSkips(k: string) {
    IsNumeric(k) || k in {"id", "name", "placeholder"}
  }

  /** The element's `id` attribute, or its name. */
  function IdOf(e: Element): string {
    match Get(e.attributes, "id")
    case Some(i) => i
    case None => e.name
  }

  /** The hidden input that submits "0" when the box is left unticked. */
  function ZeroInput(id: string, name: string): string {
    "<input type=\"hidden\" id=\"" + id + "_\" name=\"" + name + "\" value=\"0\" />"
  }

  /** The checkbox itself, which submits "1". */
  function OneBox(id: string, name: string, attrs: string, on: bool): string {
    "<input type=\"checkbox\" id=\"" + id + "\" name=\"" + name + "\" value=\"1\"" + attrs
    + (if on then " checked=\"checked\"" else "") + " />"
  }

  /** `Check::render($attributes)`: the hidden "0" input, a line break, then the
      "1" checkbox, ticked exactly when the value is truthy. */
  function CheckRender(e: Element, attrs: Dict): (r: string)
    ensures StartsWith(r, ZeroInput(IdOf(e), e.name) + "\n")
    ensures r[|ZeroInput(IdOf(e), e.name)| + 1..]
            == OneBox(IdOf(e), e.name, AttrList(Kept(attrs, CheckSkips)), ValueTruthy(e.value))
  {
    ZeroInput(IdOf(e), e.name) + "\n" + OneBox(IdOf(e), e.name, AttrList(Kept(attrs, CheckSkips)), ValueTruthy(e.value))
  }

  /** Two values give the same markup exactly when both or neither are truthy; the
      checkbox never carries an id, name, placeholder or numeric-key attribute. */
  lemma CheckTickedIffTruthy(e: Element, attrs: Dict, v: Value)
    ensures CheckRender(e.(value := v), attrs) == CheckRender(e, attrs) <==> ValueTruthy(v) == ValueTruthy(e.value)
    ensures forall p :: p in Kept(attrs, CheckSkips) <==> p in attrs && !CheckSkips(p.0)
  {
    var a := AttrList(Kept(attrs, CheckSkips));
    var head := ZeroInput(IdOf(e), e.name) + "\n";
    if ValueTruthy(v) != ValueTruthy(e.value) {
      var x, y := OneBox(IdOf(e), e.name, a, ValueTruthy(v)), OneBox(IdOf(e), e.name, a, ValueTruthy(e.value));
      assert |x| != |y|;
      assert |head + x| != |head + y|;
    }
    forall p
      ensures p in Kept(attrs, CheckSkips) <==> p in attrs && !CheckSkips(p.0)
    {
      KeptMembers(attrs, CheckSkips, p);
    }
  }

  // ---------------------------------------------------------------- Raw

  /** `Raw::render()`: the value as text, whatever the attributes; an array value
      prints as "Array". */
  function RawRender(e: Element): (r: string)
    ensures e.value.Scalar? ==> r == e.value.text
    ensures e.value.Items? ==> r == "Array"
  {
    AsText(e.value)
  }

  // ---------------------------------------------------------------- Radio and MultiCheck

  /** `$op_value == $value` (string equality; an array value equals no option). */
  predicate IsChosen(op: string, v: Value) {
    v == Scalar(op)
  }

  /** `in_array($op_value, $value)`: membership in an array value; PHP 7 answers
      null, so no option is chosen, when the value is not an array. */
  predicate IsAmong(op: string, v: Value) {
    v.Items? && op in v.items
  }

  const FlexOpen: string := "<div class=\"d-flex align-items-center justify-content-center\">" + Eol

  /** One option of `Radio::render`. */
  function RadioInput(name: string, op: (string, string), on: bool, attrs: string): string {
    "<div class=\"form-check\">" + Eol
    + "  <input type=\"radio\" name=\"" + name + "\" value=\"" + op.0 + "\"" + Mark(on) + attrs + ">" + Eol
    + "  <label>" + op.1 + "</label>" + Eol
    + "</div>" + Eol
  }

  function RadioInputs(e: Element, attrs: Dict): seq<string> {
    seq(|e.options|, i requires 0 <= i < |e.options| =>
      RadioInput(e.name, e.options[i], IsChosen(e.options[i].0, e.value), AttrString(attrs)))
  }

  /** `Radio::render($attributes)`: one radio input per option, in option order,
      inside a flex container; an option is checked when it equals the value, so
      (option keys being distinct) at most one is. */
  function RadioRender(e: Element, attrs: Dict): (r: string)
    ensures r == FlexOpen + Concat(RadioInputs(e, attrs)) + "</div>" + Eol
    ensures |RadioInputs(e, attrs)| == |e.options|
    ensures forall i, j :: 0 <= i < j < |e.options| ==> !(IsChosen(e.options[i].0, e.value) && IsChosen(e.options[j].0, e.value))
  {
    FlexOpen + Concat(RadioInputs(e, attrs)) + "</div>" + Eol
  }

  /** One option of `MultiCheck::render`. */
  function MultiCheckInput(name: string, op: (string, string), on: bool): string {
    "<div class=\"form-check form-check-inline\">" + Eol
    + "  <input class=\"form-check-input\" type=\"checkbox\" name=\"" + name + "\" value=\"" + op.0 + "\" "
    + Mark(on) + ">" + Eol
    + "  <label class=\"form-check-label\">" + op.1 + "</label>" + Eol
    + "</div>" + Eol
  }

  function MultiCheckInputs(e: Element): seq<string> {
    seq(|e.options|, i requires 0 <= i < |e.options| =>
      MultiCheckInput(e.name + "[]", e.options[i], IsAmong(e.options[i].0, e.value)))
  }

  /** `MultiCheck::render()`: one checkbox per option, in option order, all named
      with the element name plus "[]"; the options checked are exactly those
      whose key is in the array value. The accumulator starts undefined, which
      PHP reads as "". */
  function MultiCheckRender(e: Element): (r: string)
    ensures StartsWith(r, FlexOpen)
    ensures r[|FlexOpen|..] == Concat(MultiCheckInputs(e)) + Eol + "</div>" + Eol
  {
    var rest := Concat(MultiCheckInputs(e)) + Eol + "</div>" + Eol;
    PrefixOfConcat(FlexOpen, rest);
    FlexOpen + rest
  }

  /** Checkbox i of `MultiCheck::render` is ticked exactly when its key is in the
      array value. */
  lemma MultiCheckTickedIffAmong(e: Element, i: nat)
    requires i < |e.options|
    ensures MultiCheckInputs(e)[i] == MultiCheckInput(e.name + "[]", e.options[i], true)
            <==> e.value.Items? && e.options[i].0 in e.value.items
  {
    var x := MultiCheckInput(e.name + "[]", e.options[i], true);
    var y := MultiCheckInput(e.name + "[]", e.options[i], false);
    assert |x| == |y| + |CheckedMark|;
  }

  /** `new MultiCheck($name, $options, $attributes)`: the `multiple` attribute is set
      (to true, printed "1"), in place if present, else appended. */
  function MultiCheckAttributes(attrs: Dict): (r: Dict)
    ensures Get(r, "multiple") == Some("1")
    ensures forall k :: k != "multiple" ==> Get(r, k) == Get(attrs, k)
  {
    Put(attrs, "multiple", "1")
  }

  /** The option inputs sit in option order: the i-th input follows the first i. */
  lemma OptionOrder(e: Element, attrs: Dict, i: nat)
    requires i < |e.options|
    ensures Concat(RadioInputs(e, attrs)) ==
      Concat(RadioInputs(e, attrs)[..i])
      + RadioInput(e.name, e.options[i], IsChosen(e.options[i].0, e.value), AttrString(attrs))
      + Concat(RadioInputs(e, attrs)[i + 1..])
    ensures Concat(MultiCheckInputs(e)) ==
      Concat(MultiCheckInputs(e)[..i])
      + MultiCheckInput(e.name + "[]", e.options[i], IsAmong(e.options[i].0, e.value))
      + Concat(MultiCheckInputs(e)[i + 1..])
  {
    ConcatPosition(RadioInputs(e, attrs), i);
    ConcatPosition(MultiCheckInputs(e), i);
  }

  /** With nothing selected (an empty array, or a scalar) no checkbox is checked. */
  lemma MultiCheckNothingSelected(e: Element)
    requires e.value == Items([]) || e.value.Scalar?
    ensures MultiCheckInputs(e) == seq(|e.options|, i requires 0 <= i < |e.options| =>
      MultiCheckInput(e.name + "[]", e.options[i], false))
  {
  }
}
