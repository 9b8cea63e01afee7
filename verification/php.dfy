/** String primitives with the meaning the PHP 7 runtime gives them. */
module Php {

  datatype Option<+T> = None | Some(value: T)

  /** PHP_EOL on the servers the forms are rendered on. */
  const Eol: string := "\n"

  /** `empty($s)` for a string: true exactly for "" and "0". */
  predicate IsEmpty(s: string) {
    s == "" || s == "0"
  }

  /** Boolean conversion of a string in a condition (`if ($s)`, `$s ? a : b`). */
  predicate Truthy(s: string) {
    !IsEmpty(s)
  }

  predicate StartsWith(s: string, prefix: string) {
    |prefix| <= |s| && s[..|prefix|] == prefix
  }

  lemma PrefixOfConcat(a: string, b: string)
    ensures StartsWith(a + b, a)
  {
    assert (a + b)[..|a|] == a;
  }

  /** The fragments concatenated left to right, as a loop of `.=` builds them. */
  function Concat(parts: seq<string>): string
  {
    if |parts| == 0 then "" else Concat(parts[..|parts| - 1]) + parts[|parts| - 1]
  }

  lemma {:induction false} ConcatAppend(a: seq<string>, b: seq<string>)
    ensures Concat(a + b) == Concat(a) + Concat(b)
    decreases |b|
  {
    if |b| == 0 {
      assert a + b == a;
    } else {
      var init, last := b[..|b| - 1], b[|b| - 1];
      assert (a + b)[..|a + b| - 1] == a + init;
      assert (a + b)[|a + b| - 1] == last;
      assert Concat(a + b) == Concat(a + init) + last;
      assert Concat(b) == Concat(init) + last;
      ConcatAppend(a, init);
    }
  }

  /** Growing a prefix of the fragments by one fragment appends that fragment. */
  lemma ConcatSnoc(parts: seq<string>, k: nat)
    requires k < |parts|
    ensures Concat(parts[..k + 1]) == Concat(parts[..k]) + parts[k]
  {
    assert parts[..k + 1][..k] == parts[..k];
  }

  /** Each fragment sits in the concatenation right after all the fragments before it. */
  lemma ConcatPosition(parts: seq<string>, i: nat)
    requires i < |parts|
    ensures Concat(parts) == Concat(parts[..i]) + parts[i] + Concat(parts[i + 1..])
  {
    var upto, after := parts[..i + 1], parts[i + 1..];
    assert parts == upto + after;
    ConcatAppend(upto, after);
    ConcatSnoc(parts, i);
  }

  /** `implode($glue, $pieces)`. */
  function Join(glue: string, pieces: seq<string>): string
  {
    if |pieces| == 0 then ""
    else if |pieces| == 1 then pieces[0]
    else pieces[0] + glue + Join(glue, pieces[1..])
  }

  /** Joining one more piece appends the glue and that piece. */
  lemma {:induction false} JoinSnoc(glue: string, pieces: seq<string>, p: string)
    requires |pieces| > 0
    ensures Join(glue, pieces + [p]) == Join(glue, pieces) + glue + p
    decreases |pieces|
  {
    var all := pieces + [p];
    if |pieces| == 1 {
      assert all[1..] == [p];
    } else {
      assert all[1..] == pieces[1..] + [p];
      JoinSnoc(glue, pieces[1..], p);
    }
  }

  /** Position of the first occurrence of `c` in `s`. */
  function IndexOf(s: string, c: char): (i: nat)
    requires c in s
    ensures i < |s| && s[i] == c && c !in s[..i]
  {
    if s[0] == c then 0
    else
      var j := IndexOf(s[1..], c);
      assert s[1..][..j] == s[1..j + 1];
      j + 1
  }

  /** `explode($d, $s)` for a one-character delimiter; an empty string gives `[""]`. */
  function Split(s: string, d: char): (parts: seq<string>)
    ensures |parts| >= 1
    ensures forall i :: 0 <= i < |parts| ==> d !in parts[i]
    decreases |s|
  {
    if d !in s then [s]
    else
      var i := IndexOf(s, d);
      [s[..i]] + Split(s[i + 1..], d)
  }

  /** The first delimiter decides the first fragment. */
  lemma SplitAt(s: string, d: char, i: nat)
    requires i < |s| && s[i] == d && d !in s[..i]
    ensures Split(s, d) == [s[..i]] + Split(s[i + 1..], d)
  {
  }

  /** Joining the fragments of a split with the same delimiter gives the string back. */
  lemma {:induction false} JoinSplit(s: string, d: char)
    ensures Join([d], Split(s, d)) == s
    decreases |s|
  {
    if d in s {
      var i := IndexOf(s, d);
      var head, tail := s[..i], s[i + 1..];
      var rest := Split(tail, d);
      JoinSplit(tail, d);
      SplitAt(s, d, i);
      var pieces := [head] + rest;
      assert |pieces| > 1 && pieces[0] == head && pieces[1..] == rest;
      assert Join([d], pieces) == head + [d] + Join([d], rest);
      assert s == head + [d] + tail;
    }
  }

  /** Splitting a join of delimiter-free pieces gives the pieces back. */
  lemma {:induction false} SplitJoin(pieces: seq<string>, d: char)
    requires |pieces| >= 1
    requires forall i :: 0 <= i < |pieces| ==> d !in pieces[i]
    ensures Split(Join([d], pieces), d) == pieces
    decreases |pieces|
  {
    if |pieces| > 1 {
      var tail := Join([d], pieces[1..]);
      var s := pieces[0] + [d] + tail;
      assert Join([d], pieces) == s;
      assert s[|pieces[0]|] == d;
      assert s[..|pieces[0]|] == pieces[0];
      assert d in s;
      var i := IndexOf(s, d);
      assert i == |pieces[0]|;
      assert s[i + 1..] == tail;
      SplitJoin(pieces[1..], d);
      assert [pieces[0]] + pieces[1..] == pieces;
    }
  }

  /** Leading ASCII digits of `s`. */
  function DigitRun(s: string): (n: nat)
    ensures n <= |s|
    ensures forall i :: 0 <= i < n ==> '0' <= s[i] <= '9'
    ensures n < |s| ==> !('0' <= s[n] <= '9')
  {
    if |s| > 0 && '0' <= s[0] <= '9' then 1 + DigitRun(s[1..]) else 0
  }

  predicate IsSpace(c: char) {
    c == ' ' || c == '\t' || c == '\n' || c == '\r' || c == '\U{B}' || c == '\U{C}'
  }

  function TrimLeft(s: string): (t: string)
    ensures |t| <= |s| && t == s[|s| - |t|..]
    ensures |t| > 0 ==> !IsSpace(t[0])
  {
    if |s| > 0 && IsSpace(s[0]) then TrimLeft(s[1..]) else s
  }

  /** `[eE][+-]?[0-9]+` */
  predicate IsExponent(s: string) {
    && |s| >= 2
    && (s[0] == 'e' || s[0] == 'E')
    && var v := if s[1] == '+' || s[1] == '-' then s[2..] else s[1..];
       |v| > 0 && DigitRun(v) == |v|
  }

  /** `is_numeric($s)` in PHP 7: leading white space, an optional sign, a decimal
      number with at least one digit around an optional point, an optional exponent,
      and nothing after it. */
  predicate IsNumeric(s: string) {
    var t := TrimLeft(s);
    var u := if |t| > 0 && (t[0] == '+' || t[0] == '-') then t[1..] else t;
    var whole := DigitRun(u);
    var rest := u[whole..];
    var frac := if |rest| > 0 && rest[0] == '.' then DigitRun(rest[1..]) else 0;
    var tail := if |rest| > 0 && rest[0] == '.' then rest[1 + frac..] else rest;
    whole + frac > 0 && (tail == "" || IsExponent(tail))
  }

  /** "12" is numeric. */
  lemma NumericInteger()
    ensures IsNumeric("12")
  {
    var s := "12";
    assert TrimLeft(s) == s;
    assert DigitRun(s[1..]) == 1 by { assert s[1..][1..] == ""; }
    assert DigitRun(s) == 2;
    assert s[2..] == "";
  }

  /** "1e3" is numeric: a digit and an exponent. */
  lemma NumericExponent()
    ensures IsNumeric("1e3")
  {
    var s := "1e3";
    assert s[0] == '1' && s[1] == 'e' && s[2] == '3';
    assert TrimLeft(s) == s;
    assert DigitRun(s) == 1 by {
      assert s[1..][0] == 'e';
    }
    var rest := s[1..];
    assert rest[0] == 'e' && rest[1] == '3' && |rest| == 2;
    assert DigitRun(rest[1..]) == 1 by { assert rest[1..][0] == '3' && rest[1..][1..] == []; }
    assert IsExponent(rest);
  }

  /** "1a" is not numeric: a letter follows the digits. */
  lemma NotNumericTrailing()
    ensures !IsNumeric("1a")
  {
    var s := "1a";
    assert s[0] == '1' && s[1] == 'a';
    assert TrimLeft(s) == s;
    assert DigitRun(s) == 1 by {
      assert s[1..][0] == 'a';
    }
    var rest := s[1..];
    assert |rest| == 1 && rest[0] == 'a';
    assert !IsExponent(rest);
  }

  /** An attribute name such as "id" is not numeric: it has no digit. */
  lemma NotNumericWord()
    ensures !IsNumeric("id")
  {
    var s := "id";
    assert s[0] == 'i';
    assert TrimLeft(s) == s;
    assert DigitRun(s) == 0;
    assert s[0..] == s;
  }

  /** The empty string is not numeric. */
  lemma NotNumericEmpty()
    ensures !IsNumeric("")
  {
    assert TrimLeft("") == "";
    assert DigitRun("") == 0;
  }

  /** `strtolower` on ASCII letters. */
  function ToLower(s: string): (t: string)
    ensures |t| == |s|
    ensures forall i :: 0 <= i < |s| && 'A' <= s[i] <= 'Z' ==> t[i] as int == s[i] as int + 32
    ensures forall i :: 0 <= i < |s| && !('A' <= s[i] <= 'Z') ==> t[i] == s[i]
  {
    seq(|s|, i requires 0 <= i < |s| => if 'A' <= s[i] <= 'Z' then (s[i] as int + 32) as char else s[i])
  }
}
