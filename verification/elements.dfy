/** The data the renderer works on: form elements, their user options, the
    decorator steps configured for them, and the framework services the
    renderer calls but does not define. */
module Elements {
  import opened Php
  import opened Assoc

  /** The element's class. The first group are the framework's own classes the
      renderer recognises by name (`Text` stands for every framework class it does
      not single out); the second group are the application's own elements. */
  datatype Kind =
    | Text | Hidden | Submit | Password | TextArea | Select | Check | Radio
    | AppButton | AppCheck | AppRadio | AppMultiCheck | AppRaw

  /** An element value: a string, or an array of strings. */
  datatype Value = Scalar(text: string) | Items(items: seq<string>)

  /** The value in a string context: an array reads as "Array". */
  function AsText(v: Value): string {
    match v
    case Scalar(s) => s
    case Items(_) => "Array"
  }

  /** The value in a condition: a non-empty array, or a string other than "" and "0". */
  predicate ValueTruthy(v: Value) {
    match v
    case Scalar(s) => Truthy(s)
    case Items(l) => |l| > 0
  }

  /** The options array of one decorator step. Absent keys read as: no placement,
      no attributes, tag "" (a missing tag reads as null, which prints as ""), and
      the three flags unset; the flags test only that the key is present. */
  datatype StepOptions = StepOptions(
    placement: Option<string>,
    attributes: Dict,
    tag: string,
    openOnly: bool,
    closeOnly: bool,
    rawValue: bool)

  const NoOptions: StepOptions := StepOptions(None, [], "", false, false, false)

  /** The placement a step uses: its `placement` option, or "APPEND". */
  function PlacementOf(opts: StepOptions): string {
    match opts.placement
    case Some(p) => p
    case None => "APPEND"
  }

  /** A decorator step: a bare type name, or an array whose first entry is the type
      and whose second entry, possibly missing or null, is the options array. */
  datatype Step = Bare(name: string) | Entry(name: string, options: Option<StepOptions>)

  /** The step's options, with missing and null options read as empty. */
  function OptionsOf(step: Step): StepOptions {
    match step
    case Bare(_) => NoOptions
    case Entry(_, None) => NoOptions
    case Entry(_, Some(o)) => o
  }

  /** The user options the renderer reads. An absent option is None (or false). */
  datatype UserOptions = UserOptions(
    decorators: Option<seq<Step>>,
    decoratorsConfirm: Option<seq<Step>>,
    required: bool,
    isRadio: bool,
    isCheckbox: bool,
    multiValues: Option<Value>)

  /** A form element; `caption` is the element's label text. */
  datatype Element = Element(
    kind: Kind,
    name: string,
    value: Value,
    attributes: Dict,
    caption: string,
    messages: seq<string>,
    options: Dict,
    userOptions: UserOptions)

  /** The framework services the renderer calls: the "string" sanitiser, `nl2br`,
      a framework element's own `render($attributes)` and its `label($attributes)`. */
  datatype Services = Services(
    sanitize: string -> string,
    nl2br: string -> string,
    render: (Element, Dict) -> string,
    labelTag: (Element, Dict) -> string)
}
