/** The small pieces of markup that several renderers share. */
module Html {
  import opened Php

  /** `k="v"` */
  function Pair(p: (string, string)): string {
    p.0 + "=\"" + p.1 + "\""
  }

  /** `"$k=\"$v\" "` for every attribute in order, each followed by a space: how
      `_wrapContent`, `_renderAsRadio` and `Radio::render` print an attribute array. */
  function AttrString(attrs: seq<(string, string)>): string {
    Concat(seq(|attrs|, i requires 0 <= i < |attrs| => Pair(attrs[i]) + " "))
  }

  /** Printing two attribute lists one after the other prints their concatenation. */
  lemma AttrStringAppend(a: seq<(string, string)>, b: seq<(string, string)>)
    ensures AttrString(a + b) == AttrString(a) + AttrString(b)
  {
    var pa := seq(|a|, i requires 0 <= i < |a| => Pair(a[i]) + " ");
    var pb := seq(|b|, i requires 0 <= i < |b| => Pair(b[i]) + " ");
    var ab := a + b;
    assert seq(|ab|, i requires 0 <= i < |ab| => Pair(ab[i]) + " ") == pa + pb;
    ConcatAppend(pa, pb);
  }

  /** One attribute prints as `k="v" `. */
  lemma AttrStringSingle(p: (string, string))
    ensures AttrString([p]) == Pair(p) + " "
  {
    var a := [p];
    var ps := seq(|a|, i requires 0 <= i < |a| => Pair(a[i]) + " ");
    assert AttrString(a) == Concat(ps);
    assert ps == [Pair(p) + " "];
    assert ps[..0] == [];
  }

  /** The attribute array without the pairs whose key `skip` rejects; the loops of
      `Button` and `Check` keep the others in order. */
  function Kept(attrs: seq<(string, string)>, skip: string -> bool): (r: seq<(string, string)>)
    ensures |r| <= |attrs|
    ensures forall i :: 0 <= i < |r| ==> !skip(r[i].0)
  {
    if |attrs| == 0 then []
    else
      var p := attrs[|attrs| - 1];
      var rest := Kept(attrs[..|attrs| - 1], skip);
      if skip(p.0) then rest else rest + [p]
  }

  /** A pair survives exactly when its key is not skipped. */
  lemma {:induction false} KeptMembers(attrs: seq<(string, string)>, skip: string -> bool, p: (string, string))
    ensures p in Kept(attrs, skip) <==> p in attrs && !skip(p.0)
    decreases |attrs|
  {
    if |attrs| > 0 {
      var init := attrs[..|attrs| - 1];
      KeptMembers(init, skip, p);
      assert attrs == init + [attrs[|attrs| - 1]];
    }
  }

  /** Keeping is order-preserving: the kept pairs of a concatenation are the kept
      pairs of each half, one after the other. */
  lemma {:induction false} KeptAppend(a: seq<(string, string)>, b: seq<(string, string)>, skip: string -> bool)
    ensures Kept(a + b, skip) == Kept(a, skip) + Kept(b, skip)
    decreases |b|
  {
    if |b| == 0 {
      assert a + b == a;
    } else {
      var ab, b' := a + b, b[..|b| - 1];
      assert ab[..|ab| - 1] == a + b';
      KeptAppend(a, b', skip);
    }
  }

  /** `' ' . implode(' ', $attrs)` where each entry is `k="v"`. */
  function AttrList(attrs: seq<(string, string)>): string {
    " " + Join(" ", seq(|attrs|, i requires 0 <= i < |attrs| => Pair(attrs[i])))
  }

  /** `<span class="form-control-static">…</span>` */
  function Static(text: string): string {
    "<span class=\"form-control-static\">" + text + "</span>"
  }

  /** ` <input type="hidden" name="…" value="…"/>`, with its leading space. */
  function HiddenInput(name: string, value: string): string {
    " <input type=\"hidden\" name=\"" + name + "\" value=\"" + value + "\"/>"
  }

  /** The attribute `_renderAsRadio`, `_renderAsCheckbox`, `Radio` and `MultiCheck`
      add to a chosen option. */
  const CheckedMark: string := " checked=\"checked\" "

  function Mark(on: bool): string {
    if on then CheckedMark else ""
  }
}
