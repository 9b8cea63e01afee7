/** The one ordering rule between decorator steps: a new fragment is joined to the
    content accumulated so far, before it ("PREPEND") or after it (any other
    placement), with the line separator in between. Both the fragment and the
    content are PHP values: the raw value of a ViewHelper step may be an array,
    which reads as "Array" once joined and which the join can pass on unchanged. */
module Placement {
  import opened Php
  import opened Elements

  /** The separator between joined fragments (the form's `$separator`, PHP_EOL). */
  const Sep: string := Eol

  /** `_concatenate($output, $content, $placement)`: `output` is the new fragment,
      `content` the accumulated one. Prepending joins the two as strings. Appending
      to a PHP-empty content ("", "0" or an empty array) returns the fragment
      itself, an array staying an array; appending to any other content joins the
      two as strings. */
  function Concatenate(output: Value, content: Value, placement: string): (r: Value)
    ensures placement == "PREPEND" ==> r.Scalar?
    ensures placement == "PREPEND" ==> |r.text| == |AsText(output)| + |Sep| + |AsText(content)|
    ensures placement == "PREPEND" ==>
      r.text[..|AsText(output)|] == AsText(output) && r.text[|AsText(output)|..|AsText(output)| + |Sep|] == Sep
    ensures placement == "PREPEND" ==> r.text[|AsText(output)| + |Sep|..] == AsText(content)
    ensures placement != "PREPEND" && !ValueTruthy(content) ==> r == output
    ensures placement != "PREPEND" && ValueTruthy(content) ==> r.Scalar?
    ensures placement != "PREPEND" && ValueTruthy(content) ==>
      |r.text| == |AsText(content)| + |Sep| + |AsText(output)|
    ensures placement != "PREPEND" && ValueTruthy(content) ==>
      r.text[..|AsText(content)|] == AsText(content)
      && r.text[|AsText(content)|..|AsText(content)| + |Sep|] == Sep
      && r.text[|AsText(content)| + |Sep|..] == AsText(output)
  {
    if placement == "PREPEND" then Scalar(AsText(output) + Sep + AsText(content))
    else if !ValueTruthy(content) then output
    else Scalar(AsText(content) + Sep + AsText(output))
  }

  /** Every placement other than "PREPEND" means "APPEND". */
  lemma OtherPlacementIsAppend(output: Value, content: Value, placement: string)
    requires placement != "PREPEND"
    ensures Concatenate(output, content, placement) == Concatenate(output, content, "APPEND")
  {
  }

  /** Prepending never loses the accumulated content, even an empty one. */
  lemma PrependKeepsContent(output: Value, content: Value)
    ensures Concatenate(output, content, "PREPEND") == Scalar(AsText(output) + Sep + AsText(content))
  {
    var r := Concatenate(output, content, "PREPEND").text;
    var o := AsText(output);
    assert r == r[..|o|] + r[|o|..|o| + |Sep|] + r[|o| + |Sep|..];
  }

  /** Appending to "", "0" or an empty array yields the new fragment alone; to
      anything else, the content, the separator and the fragment, as a string. */
  lemma AppendShape(output: Value, content: Value)
    ensures !ValueTruthy(content) ==> Concatenate(output, content, "APPEND") == output
    ensures ValueTruthy(content) ==>
      Concatenate(output, content, "APPEND") == Scalar(AsText(content) + Sep + AsText(output))
  {
    if ValueTruthy(content) {
      var r := Concatenate(output, content, "APPEND").text;
      var c := AsText(content);
      assert r == r[..|c|] + r[|c|..|c| + |Sep|] + r[|c| + |Sep|..];
    }
  }

  /** Between strings, emptiness is PHP's: "" and "0" are empty. */
  lemma StringContent(output: string, content: string, placement: string)
    ensures placement != "PREPEND" && IsEmpty(content) ==>
      Concatenate(Scalar(output), Scalar(content), placement) == Scalar(output)
    ensures placement != "PREPEND" && !IsEmpty(content) ==>
      Concatenate(Scalar(output), Scalar(content), placement) == Scalar(content + Sep + output)
  {
    if placement != "PREPEND" {
      OtherPlacementIsAppend(Scalar(output), Scalar(content), placement);
      AppendShape(Scalar(output), Scalar(content));
    }
  }
}
