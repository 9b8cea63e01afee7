# Decorator-based form renderer, modelled in Dafny

`FormBase` is a form class for the Phalcon framework. It turns every element of a
form into HTML by running a list of *decorator steps* over it:

- **Label** prints the element's label; a required field gets a red asterisk.
- **ViewHelper** prints the control itself.
- **HtmlTag** wraps what has been built so far in a tag.
- **Errors** appends the validation messages.

Each step gets the markup accumulated so far and returns the new markup. It
joins its own fragment before the accumulated markup (`PREPEND`) or after it
(any other placement), with `PHP_EOL` in between. In *confirm mode* the ViewHelper
step shows the value of each element other than a hidden field or a submit button
as read-only text, followed by a hidden input carrying it. Hidden fields and submit
buttons are drawn as in normal mode. A password is shown as a fixed mask, a text
area through `nl2br`, and a select as the labels of its chosen options. `render_all` puts every element's markup between the `<form>` and
`</form>` tags. It builds the form tag's attributes from three layers: defaults,
configuration, and the form's own options. The file also defines the application's
own elements: `Button`, `Check`, `Raw`, `Radio` and `MultiCheck`.

The Dafny modules follow that structure:

| module | file | what it holds |
|---|---|---|
| `Php` | php.dfy | the PHP behaviour the renderer relies on: `empty()`, string truthiness, `implode`/`explode`, `is_numeric`, `strtolower` |
| `Assoc` | assoc.dfy | PHP arrays with string keys: ordered pairs with unique keys; assignment, `unset`, `array_merge` |
| `Elements` | elements.dfy | elements, their kinds, values and user options, decorator steps and their options, the framework services |
| `Placement` | placement.dfy | `_concatenate` |
| `Html` | html.dfy | markup pieces several renderers share |
| `CustomElements` | custom_elements.dfy | `Button`, `Check`, `Raw`, `Radio` and `MultiCheck` `render` |
| `Decorators` | decorators.dfy | `_wrapContent`, `_buildError`, `_buildLabel` |
| `Input` | input.dfy | `_buildInput` in both modes, `_renderAsRadio`, `_renderAsCheckbox` |
| `Pipeline` | pipeline.dfy | `renderDecorated`, `getDecorators`, `_buildDefaultDecorator` |
| `Form` | form.dfy | the form's settings, the `<form>` attributes, the action, `render_all` |

The framework services the renderer calls but does not define are fields of a
`Services` value, so every property holds whatever they do:

- the "string" sanitiser;
- `nl2br`;
- a framework element's own `render($attributes)`;
- a framework element's `label($attributes)`.

`render_all` takes as parameters the router's controller name, action name and
parameters, the array of the configuration's `form` section, `tag->form` and
`tag->endForm`.

The markup accumulated by the steps is a PHP value, not always a string. The
`raw_value` input step passes the sanitised value through, and when no `multi_values`
are set that value may be an array. Appending it to PHP-empty content keeps the
array; prepending it turns it into the text "Array". A later step that prints a non-empty array shows "Array", and a full-wrap
tag drops an empty one (`Pipeline.RawEmptyArrayInDiv`).

`_buildLabel` changes the element it is given: it appends the required marker to
the element's label. The model makes that change explicit. The Label step, the
pipeline and `render_all` all return the element as they leave it, and a
required element's label gains another marker on every render.

Some behaviour of the code worth knowing:

- In confirm mode a `Check` shows its sanitised value, as the default branch of the
  confirm output does.
- In confirm mode the application's `Button` falls into the default branch,
  because `get_class` returns the exact class name (`AppButton` here).
- `MultiCheck::render` prints only the option checkboxes inside a flex div.
- The required marker is appended to the label on every render
  (`Pipeline.DefaultRenderTwice`).
- The hidden inputs of confirm mode carry the sanitised value.
- The default element class is stored but never applied to elements.
- A full wrap of "C" in a div with class "x" prints the open tag (with a space
  before `>`), a separator, the content, a separator and the close tag
  (`Decorators.WrapDivExample`).
- Under an `APPEND` placement, a select drawn as radio buttons prints the
  accumulated markup twice (`Input.AsRadioRepeatsContent`). `_renderAsRadio`
  starts from that markup, and `_concatenate` joins it again.

## Model

| member | source | states |
|---|---|---|
| Placement.Concatenate | FormBase.php:182-197 | PREPEND yields the fragment, the separator, then the content, as text, with the content always kept; any other placement returns the fragment itself, an array included, when the content is PHP-empty, and otherwise the content, separator and fragment as text |
| Placement.AppendShape | FormBase.php:189-195 | appending to PHP-empty content ("", "0" or an empty array) returns the fragment unchanged, otherwise content + separator + fragment as text |
| Placement.PrependKeepsContent | FormBase.php:187-188 | prepending is fragment + separator + content, even for empty content |
| Placement.OtherPlacementIsAppend | FormBase.php:186-190 | every placement other than PREPEND behaves as APPEND |
| Placement.StringContent | FormBase.php:189-195 | for string content, "" and "0" leave the fragment alone and every other string gives content + separator + fragment |
| Decorators.WrapContent | FormBase.php:333-361 | a full wrap yields open tag + separator + close tag for PHP-empty content (an empty array is dropped), and open tag + separator + content as text + separator + close tag otherwise |
| Decorators.WrapModes | FormBase.php:337-354 | tag "br" joins a lone `<br />` by the placement; open-only joins only the open tag; close-only joins only the close tag |
| Decorators.WrapPrecedence | FormBase.php:347-354 | open-only wins over close-only; "br" ignores attributes and both flags |
| Decorators.FullWrapIgnoresPlacement | FormBase.php:356-360 | a full wrap gives the same markup whatever the placement |
| Decorators.WrapDivExample | FormBase.php:340-360 | a div with class "x" around "C" is `<div class="x" >`, newline, C, newline, `</div>` |
| Decorators.WrapEmptyArrayExample | FormBase.php:356-360 | a full div wrap of an empty array prints `<div >`, newline, `</div>`: the array leaves no trace |
| Decorators.WrapArrayTextExample | FormBase.php:356-360 | a full div wrap of the text "Array" prints it between the tags |
| Decorators.WrapArrayExample | FormBase.php:356-360 | a full div wrap of a non-empty array prints "Array" between the tags |
| Decorators.AppendAll | FormBase.php:371-373 | the message loop appends the concatenation of all messages, in order |
| Decorators.BuildError | FormBase.php:362-377 | no messages leave the content unchanged, an array included; otherwise the content as text + alert span + all messages in order + `</span>` |
| Decorators.MessagesInOrder | FormBase.php:369-375 | message i appears after messages 0..i-1 and before the rest |
| Decorators.MarkerStyle | FormBase.php:216-219 | the marker uses the form's style when it is truthy, and the default style otherwise |
| Decorators.LabelledElement | FormBase.php:199-221 | only the label text changes: it gains the marker exactly when the element is required and is not a wrapping Check or Radio |
| Decorators.BuildLabel | FormBase.php:199-225 | a Check or Radio with placement WRAP wraps content + label text in `<label>`; otherwise the label tag of the (possibly marked) element is joined by the placement |
| Input.Filtered | FormBase.php:234-242 | the sanitiser is applied to the `multi_values` joined with "," when that option is an array, else to the value |
| Input.HiddenName | FormBase.php:306-310 | one trailing "[]" is removed (also before a final newline, as PCRE's `$` allows); a name without one is unchanged |
| Input.HiddenNameStripsOnce | FormBase.php:316-321 | `n[]` becomes `n`, and `n[][]` becomes `n[]` |
| Input.DisplayLabelsAppend | FormBase.php:297-302 | the labels of a split value are the labels of its parts in turn |
| Input.DisplayLabelsAll | FormBase.php:297-302 | with no empty fragment, fragment i contributes its option label at position i ("" for a missing option) |
| Input.DisplayLabelsSkipEmpty | FormBase.php:298-300 | empty fragments contribute no label |
| Input.SelectDisplaySelfLabelled | FormBase.php:295-304 | when every fragment is a non-empty option labelled by itself, the display is the value itself (split and join are inverse) |
| Input.SelectDisplayExample | FormBase.php:295-304 | options 1:Red, 2:Blue and value "1,2" display "Red,Blue" |
| Input.ConfirmOutput | FormBase.php:266-325 | Hidden and Submit are drawn by the framework, as in normal mode; Password shows the mask and a hidden input under its own name; TextArea shows the sanitised value through `nl2br` and a hidden input under its own name; Select shows the comma-join of option labels; every class other than Hidden, Submit, Password, TextArea and Select (the application's included) shows the sanitised value; Select and that default branch name the hidden input with one trailing "[]" removed; every hidden input carries the whole sanitised value |
| Input.PasswordNeverShown | FormBase.php:271-273 | the visible part of a confirmed password is the mask whatever the value; the value appears only in the hidden input after it |
| Input.ElementRenderDispatch | FormBase.php:624-630 | Raw prints its value whatever the attributes and services; framework classes are drawn by the framework |
| Input.ElementRender | FormBase.php:258-263 | each application class is drawn by its own `render` (Button, Check, Raw, Radio, MultiCheck) and every framework class by the framework's `render` |
| Input.NormalOutput | FormBase.php:248-264 | a select with `is_radio` is drawn by `_renderAsRadio` from the content, one with only `is_checkbox` by `_renderAsCheckbox`, and every other element by its own `render` |
| Input.SelectDisplay | FormBase.php:295-304 | an array value (which `explode` turns into null) and the empty string display nothing; a single comma-free value displays its option label |
| Input.RenderAsRadio | FormBase.php:441-463 | no options give back the content unchanged, an array included; otherwise the content as text, then one radio input per option, in option order |
| Input.AsRadioCheckedIffChosen | FormBase.php:452-458 | option i is checked exactly when its key equals the value |
| Input.AsCheckboxTickedIffAmong | FormBase.php:481-510 | option i is ticked exactly when its key is among the `multi_values` (a scalar is wrapped in an array) |
| Input.RenderAsCheckbox | FormBase.php:464-520 | the accumulated content, a column div, one checkbox per option in order, then the closing div |
| Input.ClassAttrCopies | FormBase.php:486-495 | an attribute is copied onto the checkboxes exactly when its key is "class" or the integer key 0, which PHP 7's loose `!=` lets through |
| Input.ClassAttrZeroKeyExample | FormBase.php:486-495 | `['class' => 'c', 'required']` prints `class="c" 0="required" ` in each checkbox |
| Input.ClassAttrSkipsIdExample | FormBase.php:486-495 | an `id` attribute is not copied; the class is |
| Input.BuildInput | FormBase.php:226-330 | `raw_value` joins the sanitised value, which may be an array, to the content by the placement; otherwise the confirm output or the normal output, chosen by the mode, is joined to the content by the placement |
| Input.RawArrayPassesOn | FormBase.php:245-246 | a `raw_value` array appended to PHP-empty content comes out as an array of the same length, not as text |
| Input.ModeIndependence | FormBase.php:244-270 | `raw_value`, Hidden and Submit give the same markup in both modes |
| Input.AsRadioRepeatsContent | FormBase.php:251-254 | appending a radio-drawn select to non-empty content starts with the content, the separator, then the content again |
| Pipeline.DefaultDecorators | FormBase.php:378-394 | the normal and confirm defaults are the same four steps: input, errors, a prepended label, and a full-wrap div |
| Pipeline.GetDecorators | FormBase.php:171-180 | confirm mode takes `decorators_confirm` and normal mode takes `decorators`, each falling back to that mode's default |
| Pipeline.ElementAfter | FormBase.php:139-167 | across a step list only the label text changes: a required element gains one marker per non-wrapping Label step, and any other element is unchanged |
| Pipeline.ApplyStep | FormBase.php:150-166 | the element after one step is the one the Label step leaves (any other step leaves it alone); an unknown type appends exactly `<p>type</p>` |
| Pipeline.RunSteps | FormBase.php:139-167 | the element the fold leaves is the one `ElementAfter` describes for the same steps |
| Pipeline.RenderDecorated | FormBase.php:134-168 | the element the mode's steps leave is the one `ElementAfter` describes, and only its label text differs from the input; a mode with no steps prints "" |
| Pipeline.RunStepsAppend | FormBase.php:139-167 | folding `a + b` is folding `b` after `a` |
| Pipeline.UnknownStepAppends | FormBase.php:164-165 | a last step of unknown type appends exactly `<p>type</p>` to the earlier steps' output |
| Pipeline.BareStepHasNoOptions | FormBase.php:140-149 | a bare step, an array step with missing or null options, and one with empty options all act the same |
| Pipeline.DefaultRenderAddsMarker | FormBase.php:214-221 | one render with the default steps appends one marker to a required element's label |
| Pipeline.DefaultRenderTwice | FormBase.php:214-221 | a second render appends a second marker |
| Pipeline.RawEmptyArrayInDiv | FormBase.php:245-246 | the steps `raw_value` input then full-wrap div, over an element whose value is an empty array, print `<div >`, newline, `</div>` |
| Form.NewForm | FormBase.php:56-77 | a new form is not in confirm mode, has no required style, and has the default element and label classes |
| Form.GetConfirm | FormBase.php:395-402 | `getConfirm` is true exactly when the form is in confirm mode |
| Form.SetConfirm | FormBase.php:395-410 | `getConfirm` returns the mode just set, and nothing else changes |
| Form.SetDefaultElementClass | FormBase.php:421-430 | a non-null class is stored, null changes nothing, and nothing else changes |
| Form.SetDefaultLabelClass | FormBase.php:431-440 | a non-null class is stored, null changes nothing, and nothing else changes |
| Form.LabelClassReachesDefaults | FormBase.php:378-386 | the label class just set is the class of the default label step |
| Form.GetRequiredStyle | FormBase.php:411-414 | the stored style unless it is null, else the default |
| Form.SetRequiredStyleAsWritten | FormBase.php:415-420 | the setter as written leaves the form unchanged |
| Form.SetRequiredStyleAsWrittenIgnoresStyle | FormBase.php:415-420 | asking a new form for "color:blue" leaves `getRequiredStyle` at the default red style |
| Form.SetRequiredStyle | FormBase.php:415-420 | a non-null style is read back by `getRequiredStyle`, null changes nothing, and nothing else changes |
| Form.SetRequiredStyleReachesMarker | FormBase.php:216-219 | a truthy style set through the setter is the style the marker prints |
| Form.MergedLookup | FormBase.php:107-111 | the two merges look every key up in user options, then configuration, then defaults |
| Form.ForceAction | FormBase.php:112-115 | the action is set; `enctype` survives exactly when the method is "post" and it was present, with its value; every other key keeps its value |
| Form.FormAttributes | FormBase.php:107-115 | the action is forced; `enctype` is present exactly when the layered method is "post" and some layer has an `enctype`; every other key has its layered value |
| Form.DefaultFormAttributes | FormBase.php:67-71 | with no configuration or options, a form posts url-encoded with autocomplete off |
| Form.GetFormHasNoEnctype | FormBase.php:113-115 | a "get" method in the user options removes `enctype` |
| Form.RoutedAction | FormBase.php:94-97 | the route starts with controller/action; with no parameters it is exactly that, otherwise the parameters follow, each after a "/" |
| Form.BuildRoute | FormBase.php:94-97 | the loop that appends each parameter after a "/" builds the route `RoutedAction` describes |
| Form.RoutedActionSplits | FormBase.php:94-97 | a route built from slash-free parts splits back into controller, action and parameters |
| Form.ResolveAction | FormBase.php:92-99 | a truthy action is kept; otherwise the route is used |
| Form.RenderEach | FormBase.php:120-126 | each element is rendered in order; its markup is followed by two separators, and the element comes back as the render left it |
| Form.RenderAll | FormBase.php:84-132 | the output is form tag, two separators, each element's block, separator, close tag, separator; the action is the form's own when truthy, else the route from the router's controller, action and parameters; the form keeps everything but its resolved action and its elements' labels |
| Form.EmptyFormOutput | FormBase.php:120-127 | a form without elements prints no element blocks |
| Form.RenderAllTwiceDoublesMarker | FormBase.php:122-125 | rendering the form twice leaves two markers on a required element's label |
| CustomElements.ButtonRender | FormBase.php:545-577 | a reset type (in any case) opens with a nameless reset button, anything else with a submit button named "action"; the copied attributes and the text (label, or the value when the label is falsy) follow |
| CustomElements.ButtonIgnoresName | FormBase.php:549-563 | renaming the element does not change its markup; a pair is copied exactly when its key is not numeric, id, name, placeholder or type |
| CustomElements.ButtonKind | FormBase.php:567-568 | "RESET" and "Reset" make a reset button; no type attribute makes a submit button |
| CustomElements.CheckRender | FormBase.php:589-617 | the hidden "0" input, a newline, then the "1" checkbox, ticked when the value is truthy |
| CustomElements.CheckTickedIffTruthy | FormBase.php:593-611 | two values give the same markup exactly when both or neither are truthy; a pair is copied exactly when its key is not numeric, id, name or placeholder |
| CustomElements.RawRender | FormBase.php:624-630 | `Raw` prints its value as text: a string as it is, an array as "Array" |
| CustomElements.RadioRender | FormBase.php:669-709 | one radio per option inside a flex div, in option order; since option keys are distinct, at most one is checked |
| CustomElements.MultiCheckRender | FormBase.php:720-745 | the flex div opens, then holds one checkbox per option, in option order, named with "[]", then closes |
| CustomElements.MultiCheckTickedIffAmong | FormBase.php:731-736 | an option's checkbox is ticked exactly when the value is an array holding the option's key |
| CustomElements.MultiCheckAttributes | FormBase.php:715-718 | the constructor sets `multiple` and leaves every other attribute |
| CustomElements.OptionOrder | FormBase.php:684-704 | the i-th option's input sits after those of the first i options and before the rest |
| CustomElements.MultiCheckNothingSelected | FormBase.php:731-736 | with an empty or scalar value no checkbox is ticked |
| Assoc.Put | FormBase.php:112 | assignment stores the value under the key, overwriting in place or appending, and leaves every other key |
| Assoc.Merge | FormBase.php:107-111 | `array_merge` has at least as many keys as the earlier array and at most as many as both arrays together |
| Assoc.Remove | FormBase.php:113-115 | `unset` removes the key and leaves every other key |
| Assoc.MergeGet | FormBase.php:107-111 | `array_merge`: the later array wins on each key it holds, and the earlier one supplies the rest |
| Assoc.MergeKeepsOrder | FormBase.php:107-111 | `array_merge` keeps the earlier array's keys in their places |
| Html.KeptMembers | FormBase.php:550-556 | the attribute filter keeps a pair exactly when its key is not skipped |
| Html.KeptAppend | FormBase.php:594-600 | the attribute filter keeps the order of the pairs |
| Html.AttrStringAppend | FormBase.php:341-343 | printing two attribute lists one after the other prints their concatenation |
| Php.JoinSplit | FormBase.php:297-303 | joining the pieces of `explode` with the same delimiter gives back the string |
| Php.SplitJoin | FormBase.php:297-303 | exploding a join of delimiter-free pieces gives back the pieces |
| Php.NumericInteger | FormBase.php:551 | `is_numeric` accepts an integer key such as "12", so the attribute filters skip it |
| Php.NumericExponent | FormBase.php:551 | `is_numeric` accepts a number with an exponent such as "1e3" |
| Php.NotNumericTrailing | FormBase.php:595 | `is_numeric` rejects "1a", so the attribute filters copy that key |
| Php.NotNumericWord | FormBase.php:595 | `is_numeric` rejects an attribute name such as "id" |
| Php.NotNumericEmpty | FormBase.php:551 | `is_numeric` rejects the empty string |

## Left out

- The router, the configuration store, `tag->form` and `tag->endForm` (FormBase.php:92-102, 116, 129) are parameters of `RenderAll`: the router's three answers, the `form` section as an array, and the two tag functions.
- Form.RenderAll: `render_all` needs a `form` section in the configuration. Without one, `->toArray()` is called on null and fails before `?? []` is reached (FormBase.php:102). That failure is not modelled.
- Pipeline.RenderDecorated: takes an element object only. Called with a name or with null, `renderDecorated` looks the element up into `$elm` but passes the original `$element` on to `getDecorators` (FormBase.php:135-136, 171-180), so `getUserOption` is called on a string or on null and fails. That failure is not modelled.
- The sanitiser, `nl2br`, and a framework element's own `render` and `label` are uninterpreted functions in `Services`. So is the normal-mode rendering of every framework class.
- The conversion of database result sets into options (FormBase.php:284-294, 469-479, 644-655) is left out: it reads foreign ORM objects. Options are always an ordered list of (key, label) pairs.
- `baseSelect::render` returns nothing, which is a type error in PHP. No element in the model is a bare `baseSelect`.
- `get_class($opts)` on an options array in `_renderAsCheckbox` only warns under PHP 7, so the model reads it as "not a result set". PHP 8 would throw there.
- Form.RenderAll: keeps the form's `required_style` unchanged. The stores `_buildLabel` makes into the form (FormBase.php:216-218) are left out. When the style is falsy it stores the default, which only `getRequiredStyle` can observe, and only after a falsy style has been set.
- CustomElements.RadioRender: `==` between an option key and the value is modelled as string equality, not PHP's loose comparison (numeric strings such as "1" and "01" compare equal in PHP).
- Input.AsRadioCheckedIffChosen: the same loose `==` is modelled as string equality.
- CustomElements.MultiCheckTickedIffAmong: `in_array` is modelled as exact membership, not loose membership. Under PHP 7 a scalar value gives `null`, which ticks nothing.
- Input.AsCheckboxTickedIffAmong: `in_array` is modelled as exact membership.
- Assoc.MergeGet: array keys are strings. PHP's integer keys and `array_merge`'s renumbering of them are not modelled.
- Attribute values are strings. The array-valued attributes `_renderAsCheckbox` skips are not modelled.
- `PHP_EOL` is taken to be "\n", its value on Unix-like systems. The "\r\n" of Windows is not modelled.
- `$indent` and `$_version` are not used by the rendering code.

## Findings

| source | as written | input that shows it | evidently intended | confidence | as-written member | corrected member |
|---|---|---|---|---|---|---|
| FormBase.php:415-420 | `setRequiredStyle($style)` stores the style only when `$newClass` is not null, but no `$newClass` exists in the method, so it is null and nothing is ever stored | `setRequiredStyle("color:blue")` on a new form, then `getRequiredStyle()` returns "color:red;font-size:xx-small" | store `$style` when it is not null, as the two class setters do | high (not executed) | Form.SetRequiredStyleAsWritten, Form.SetRequiredStyleAsWrittenIgnoresStyle | Form.SetRequiredStyle, Form.SetRequiredStyleReachesMarker |
