/** Three of the decorator steps: the HtmlTag wrapper, the Errors block and the
    Label step. Each takes the content accumulated so far and returns the new one. */
module Decorators {
  import opened Php
  import opened Assoc
  import opened Elements
  import opened Html
  import opened Placement

  // ---------------------------------------------------------------- HtmlTag

  /** `'<' . $tag . ' ' . $attr . '>'`: the attributes each followed by a space. */
  function OpenTag(tag: string, attrs: Dict): string {
    "<" + tag + " " + AttrString(attrs) + ">"
  }

  function CloseTag(tag: string): string {
    "</" + tag + ">"
  }

  /** Full wrap: neither "br" nor one of the two one-sided modes. */
  predicate IsFullWrap(opts: StepOptions) {
    opts.tag != "br" && !opts.openOnly && !opts.closeOnly
  }

  /** `_wrapContent($element, $options, $content)`. Tag "br" joins a lone `<br />`
      by the placement; `openOnly` joins only the open tag and takes precedence over
      `closeOnly`, which joins only the close tag; otherwise the content goes between
      open and close tag, whatever the placement, and a PHP-empty content ("", "0"
      or an empty array) is dropped. */
  function WrapContent(opts: StepOptions, content: Value): (r: Value)
    ensures IsFullWrap(opts) && !ValueTruthy(content) ==>
      r == Scalar(OpenTag(opts.tag, opts.attributes) + Sep + CloseTag(opts.tag))
    ensures IsFullWrap(opts) && ValueTruthy(content) ==>
      r == Scalar(OpenTag(opts.tag, opts.attributes) + Sep + AsText(content) + Sep + CloseTag(opts.tag))
  {
    var placement := PlacementOf(opts);
    if opts.tag == "br" then
      Concatenate(Scalar("<br />"), content, placement)
    else if opts.openOnly then
      Concatenate(Scalar(OpenTag(opts.tag, opts.attributes)), content, placement)
    else if opts.closeOnly then
      Concatenate(Scalar(CloseTag(opts.tag)), content, placement)
    else
      var inner := Concatenate(Scalar(CloseTag(opts.tag)), content, "APPEND");
      AppendShape(Scalar(CloseTag(opts.tag)), content);
      PrependKeepsContent(Scalar(OpenTag(opts.tag, opts.attributes)), inner);
      Concatenate(Scalar(OpenTag(opts.tag, opts.attributes)), inner, "PREPEND")
  }

  /** The one-sided modes and "br" join a single piece by the step's placement. */
  lemma WrapModes(opts: StepOptions, content: Value)
    ensures opts.tag == "br" ==>
      WrapContent(opts, content) == Concatenate(Scalar("<br />"), content, PlacementOf(opts))
    ensures opts.tag != "br" && opts.openOnly ==>
      WrapContent(opts, content) == Concatenate(Scalar(OpenTag(opts.tag, opts.attributes)), content, PlacementOf(opts))
    ensures opts.tag != "br" && !opts.openOnly && opts.closeOnly ==>
      WrapContent(opts, content) == Concatenate(Scalar(CloseTag(opts.tag)), content, PlacementOf(opts))
  {
  }

  /** `openOnly` wins over `closeOnly`; "br" ignores attributes and both flags. */
  lemma WrapPrecedence(opts: StepOptions, content: Value, attrs: Dict, closeOnly: bool, openOnly: bool)
    ensures opts.openOnly ==> WrapContent(opts.(closeOnly := closeOnly), content) == WrapContent(opts, content)
    ensures opts.tag == "br" ==>
      WrapContent(opts.(attributes := attrs, openOnly := openOnly, closeOnly := closeOnly), content)
      == WrapContent(opts, content)
  {
  }

  /** A full wrap does not depend on the step's placement. */
  lemma FullWrapIgnoresPlacement(opts: StepOptions, content: Value, placement: Option<string>)
    requires IsFullWrap(opts)
    ensures WrapContent(opts.(placement := placement), content) == WrapContent(opts, content)
  {
  }

  /** `class="x"`, with the space the attribute loop leaves after it. */
  lemma ClassXAttributes()
    ensures AttrString([("class", "x")]) == "class=\"x\" "
  {
    var attrs: Dict := [("class", "x")];
    var parts := seq(|attrs|, i requires 0 <= i < |attrs| => Pair(attrs[i]) + " ");
    assert |parts| == 1 && parts[0] == Pair(attrs[0]) + " ";
    assert parts[..0] == [];
    assert Concat(parts) == Concat(parts[..0]) + parts[0];
    assert Pair(attrs[0]) == "class=\"x\"";
  }

  /** A div with class "x" around "C": open tag (with the space the attribute loop
      leaves before '>'), separator, content, separator, close tag. */
  lemma WrapDivExample()
    ensures WrapContent(StepOptions(None, [("class", "x")], "div", false, false, false), Scalar("C"))
            == Scalar("<div class=\"x\" >\nC\n</div>")
  {
    var opts := StepOptions(None, [("class", "x")], "div", false, false, false);
    assert IsFullWrap(opts) && ValueTruthy(Scalar("C"));
    var open := OpenTag("div", [("class", "x")]);
    assert WrapContent(opts, Scalar("C")) == Scalar(open + Sep + "C" + Sep + CloseTag("div"));
    ClassXAttributes();
    ClassXDivText();
  }

  /** The printed div of the example above, piece by piece. */
  lemma ClassXDivText()
    ensures "<" + "div" + " " + "class=\"x\" " + ">" + Sep + "C" + Sep + CloseTag("div")
            == "<div class=\"x\" >\nC\n</div>"
  {
  }

  /** A div with no attributes: the attribute loop prints nothing. */
  lemma BareDivTag()
    ensures OpenTag("div", []) == "<div >"
  {
    var parts: seq<string> := [];
    assert AttrString([]) == Concat(parts);
  }

  /** An empty array is PHP-empty, so a div around it is an empty div. */
  lemma WrapEmptyArrayExample()
    ensures WrapContent(StepOptions(None, [], "div", false, false, false), Items([]))
            == Scalar("<div >\n</div>")
  {
    BareDivTag();
    assert !ValueTruthy(Items([]));
    assert "<div >" + Sep + CloseTag("div") == "<div >\n</div>";
  }

  /** The string "Array", which an array prints as, is kept inside the div. */
  lemma WrapArrayTextExample()
    ensures WrapContent(StepOptions(None, [], "div", false, false, false), Scalar("Array"))
            == Scalar("<div >\nArray\n</div>")
  {
    var opts := StepOptions(None, [], "div", false, false, false);
    assert IsFullWrap(opts) && ValueTruthy(Scalar("Array"));
    assert WrapContent(opts, Scalar("Array")) == Scalar(OpenTag("div", []) + Sep + "Array" + Sep + CloseTag("div"));
    BareDivTag();
    ArrayDivText();
  }

  /** A non-empty array prints as "Array" inside the div. */
  lemma WrapArrayExample()
    ensures WrapContent(StepOptions(None, [], "div", false, false, false), Items(["a", "b"]))
            == Scalar("<div >\nArray\n</div>")
  {
    var opts := StepOptions(None, [], "div", false, false, false);
    assert IsFullWrap(opts) && ValueTruthy(Items(["a", "b"])) && AsText(Items(["a", "b"])) == "Array";
    assert WrapContent(opts, Items(["a", "b"])) == Scalar(OpenTag("div", []) + Sep + "Array" + Sep + CloseTag("div"));
    BareDivTag();
    ArrayDivText();
  }

  lemma ArrayDivText()
    ensures "<div >" + Sep + "Array" + Sep + CloseTag("div") == "<div >\nArray\n</div>"
  {
  }

  // ---------------------------------------------------------------- Errors

  const AlertOpen: string := "<span class=\"alert-danger rounded pt-2 col-sm-3\">"
  const AlertClose: string := "</span>"

  /** The `foreach ... $content .= $message` loop. */
  function AppendAll(acc: string, messages: seq<string>): (r: string)
    ensures r == acc + Concat(messages)
    decreases |messages|
  {
    if |messages| == 0 then acc
    else
      ConcatAppend([messages[0]], messages[1..]);
      assert [messages[0]] + messages[1..] == messages;
      assert [messages[0]][..0] == [];
      AppendAll(acc + messages[0], messages[1..])
  }

  /** `_buildError($element, $options, $content)`: content unchanged (an array
      included) when the element has no messages; otherwise the content as a string,
      an alert span holding every message concatenated in order, and the closing
      span. */
  function BuildError(e: Element, content: Value): (r: Value)
    ensures |e.messages| == 0 ==> r == content
    ensures |e.messages| > 0 ==> r == Scalar(AsText(content) + AlertOpen + Concat(e.messages) + AlertClose)
  {
    if |e.messages| > 0 then Scalar(AppendAll(AsText(content) + AlertOpen, e.messages) + AlertClose)
    else content
  }

  /** Message i is printed after messages 0..i-1 and before the rest. */
  lemma MessagesInOrder(e: Element, content: Value, i: nat)
    requires i < |e.messages|
    ensures BuildError(e, content).text
            == AsText(content) + AlertOpen + Concat(e.messages[..i]) + e.messages[i] + Concat(e.messages[i + 1..]) + AlertClose
  {
    var head := AsText(content) + AlertOpen;
    assert BuildError(e, content).text == head + Concat(e.messages) + AlertClose;
    Surrounded(head, e.messages, i, AlertClose);
  }

  lemma Surrounded(head: string, m: seq<string>, i: nat, tail: string)
    requires i < |m|
    ensures head + Concat(m) + tail == head + Concat(m[..i]) + m[i] + Concat(m[i + 1..]) + tail
  {
    var whole, pre, x, post := Concat(m), Concat(m[..i]), m[i], Concat(m[i + 1..]);
    ConcatPosition(m, i);
    assert whole == pre + x + post;
    Regroup(head, pre, x, post, tail);
  }

  /** String concatenation is associative across a middle group. */
  lemma Regroup(a: string, b: string, c: string, d: string, e: string)
    ensures a + (b + c + d) + e == a + b + c + d + e
  {
  }

  // ---------------------------------------------------------------- Label

  /** The form's default style for the required marker. */
  const DefaultRequiredStyle: string := "color:red;font-size:xx-small"

  /** The style `_buildLabel` prints: the form's `required_style` when it is truthy,
      else the default (which the call also stores in the form). */
  function MarkerStyle(style: Option<string>): (r: string)
    ensures style.Some? && Truthy(style.value) ==> r == style.value
    ensures style.None? || IsEmpty(style.value) ==> r == DefaultRequiredStyle
  {
    match style
    case Some(s) => if Truthy(s) then s else DefaultRequiredStyle
    case None => DefaultRequiredStyle
  }

  /** The marker appended to a required element's label. */
  function Marker(style: string): string {
    "<span style=\"" + style + "\">*</span>"
  }

  /** The marker in the default style. */
  const RequiredMarker: string := Marker(DefaultRequiredStyle)

  /** A truthy `required` attribute or a truthy `required` user option. */
  predicate IsRequired(e: Element) {
    (match Get(e.attributes, "required") case Some(v) => Truthy(v) case None => false)
    || e.userOptions.required
  }

  /** A Label step with placement "WRAP" on an element of a framework Check or
      Radio class. */
  predicate KindWrapsLabel(kind: Kind, opts: StepOptions) {
    (kind == Check || kind == Radio) && opts.placement == Some("WRAP")
  }

  /** The element's Label step wraps instead of printing a label tag. */
  predicate WrapsLabel(e: Element, opts: StepOptions) {
    KindWrapsLabel(e.kind, opts)
  }

  /** The element as `_buildLabel` leaves it: a required element that is not a
      wrapping Check or Radio gets the marker appended to its label text (the
      element is changed, so each further call appends another marker); any
      other element is left as it was. */
  function LabelledElement(style: Option<string>, e: Element, opts: StepOptions): (r: Element)
    ensures r == e.(caption := r.caption)
    ensures WrapsLabel(e, opts) || !IsRequired(e) ==> r == e
    ensures !WrapsLabel(e, opts) && IsRequired(e) ==> r.caption == e.caption + Marker(MarkerStyle(style))
  {
    if !WrapsLabel(e, opts) && IsRequired(e) then e.(caption := e.caption + Marker(MarkerStyle(style))) else e
  }

  /** `_buildLabel($element, $options, $content)` with the form's `required_style`,
      returning the element as the call leaves it. A wrapping Check or Radio puts
      its label text after the content (`.=`, so an array reads as "Array") and wraps both in a `<label>` tag. Otherwise
      the framework's label tag for the (possibly marked) element is joined by the
      step's placement. */
  function BuildLabel(svc: Services, style: Option<string>, e: Element, opts: StepOptions, content: Value): (r: (Element, Value))
    ensures r.0 == LabelledElement(style, e, opts)
    ensures WrapsLabel(e, opts) ==> r.1 == WrapContent(opts.(tag := "label"), Scalar(AsText(content) + e.caption))
    ensures !WrapsLabel(e, opts) ==>
      r.1 == Concatenate(Scalar(svc.labelTag(r.0, opts.attributes)), content, PlacementOf(opts))
  {
    var marked := LabelledElement(style, e, opts);
    if WrapsLabel(e, opts) then
      (e, WrapContent(opts.(tag := "label"), Scalar(AsText(content) + e.caption)))
    else
      (marked, Concatenate(Scalar(svc.labelTag(marked, opts.attributes)), content, PlacementOf(opts)))
  }
}
