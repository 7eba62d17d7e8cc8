/**
 * The parts of Ruby's core library and of ActiveSupport that the controllers
 * lean on: nil, `blank?`, `start_with?`, the awk-style `split(" ")`, `last`,
 * `downcase` and `Integer#to_s`.
 */
module RubyCore {

  /** Ruby's nil-or-value. */
  datatype Option<+T> = None | Some(value: T) {
    function GetOr(default: T): T {
      match this
      case Some(v) => v
      case None => default
    }
  }

  /** A request key that may be absent (outer None) or sent as nil (inner
      None): reading it gives nil in both cases. */
  function Flatten<T>(o: Option<Option<T>>): (r: Option<T>)
    ensures r.Some? <==> o.Some? && o.value.Some?
    ensures r.Some? ==> r.value == o.value.value
  {
    if o.Some? then o.value else None
  }

  /** The ASCII whitespace that `String#split(" ")` separates fields on. */
  predicate IsSpace(c: char) {
    c == ' ' || c == '\t' || c == '\n' || c == '\U{000B}' || c == '\U{000C}' || c == '\r'
  }

  /** A character of the POSIX class [[:space:]] as Onigmo reads it on a
      Unicode string (the Unicode White_Space property), which is what
      ActiveSupport's `String#blank?` matches against. */
  predicate IsBlankChar(c: char) {
    IsSpace(c) || c == '\U{0085}' || c == '\U{00A0}' || c == '\U{1680}'
    || ('\U{2000}' <= c <= '\U{200A}') || c == '\U{2028}' || c == '\U{2029}'
    || c == '\U{202F}' || c == '\U{205F}' || c == '\U{3000}'
  }

  /** `String#blank?`: empty or made only of whitespace. */
  predicate Blank(s: string) {
    forall i :: 0 <= i < |s| ==> IsBlankChar(s[i])
  }

  /** `blank?` on a value that may be nil (`nil.blank?` is true). */
  predicate BlankOrNil(s: Option<string>) {
    s.None? || Blank(s.value)
  }

  /** `String#start_with?(prefix)`. */
  predicate StartsWith(s: string, prefix: string) {
    |prefix| <= |s| && s[..|prefix|] == prefix
  }

  /** No character of `s` is a field separator of `split(" ")`. */
  predicate NoSpace(s: string) {
    forall i :: 0 <= i < |s| ==> !IsSpace(s[i])
  }

  /** Length of the leading run of non-separator characters. */
  function WordLength(s: string): (n: nat)
    ensures n <= |s|
    ensures NoSpace(s[..n])
    ensures n < |s| ==> IsSpace(s[n])
  {
    if s == [] || IsSpace(s[0]) then 0
    else
      var n := 1 + WordLength(s[1..]);
      assert s[..n] == [s[0]] + s[1..][..n - 1];
      n
  }

  /** `String#split(" ")`: awk-style splitting, which drops leading and
      trailing whitespace and treats each run of whitespace as one
      separator, so no field is empty and no field holds whitespace. */
  function Split(s: string): (fields: seq<string>)
    ensures forall i :: 0 <= i < |fields| ==> fields[i] != [] && NoSpace(fields[i])
    decreases |s|
  {
    if s == [] then []
    else if IsSpace(s[0]) then Split(s[1..])
    else
      var n := WordLength(s);
      [s[..n]] + Split(s[n..])
  }

  /** `Array#last`: nil on an empty array. */
  function Last<T>(xs: seq<T>): (r: Option<T>)
    ensures r.None? <==> xs == []
    ensures r.Some? ==> r.value == xs[|xs| - 1]
  {
    if xs == [] then None else Some(xs[|xs| - 1])
  }

  /** `String#downcase`, restricted to the ASCII letters. */
  function Downcase(s: string): (r: string)
    ensures |r| == |s|
    ensures forall i :: 0 <= i < |s| ==> r[i] == LowerChar(s[i])
  {
    if s == [] then [] else [LowerChar(s[0])] + Downcase(s[1..])
  }

  function LowerChar(c: char): char {
    if 'A' <= c <= 'Z' then (c as int - 'A' as int + 'a' as int) as char else c
  }

  /** `Integer#to_s` for a non-negative integer. */
  function Decimal(n: nat): (s: string)
    ensures s != [] && s[0] != '-'
    ensures forall i :: 0 <= i < |s| ==> '0' <= s[i] <= '9'
  {
    if n < 10 then [Digit(n)] else Decimal(n / 10) + [Digit(n % 10)]
  }

  function Digit(d: nat): (c: char)
    requires d < 10
    ensures '0' <= c <= '9'
  {
    ('0' as int + d) as char
  }

  /** A word followed by a separator: the split yields that word first and
      then splits the rest. */
  lemma {:induction false} SplitAfterWord(w: string, c: char, rest: string)
    requires w != [] && NoSpace(w) && IsSpace(c)
    ensures Split(w + [c] + rest) == [w] + Split(rest)
  {
    var tail := [c] + rest;
    var s := w + tail;
    assert s == w + [c] + rest;
    WordLengthOfWord(w, tail);
    assert s[0] == w[0] && !IsSpace(s[0]);
    assert s[..|w|] == w;
    assert s[|w|..] == tail;
    assert Split(s) == [w] + Split(tail);
    assert tail[1..] == rest;
    assert Split(tail) == Split(rest);
  }

  /** The leading run of `w + tail` is exactly `w` when `tail` starts with a separator. */
  lemma {:induction false} WordLengthOfWord(w: string, tail: string)
    requires NoSpace(w)
    requires tail != [] && IsSpace(tail[0])
    ensures WordLength(w + tail) == |w|
  {
    if w != [] {
      assert (w + tail)[1..] == w[1..] + tail;
      WordLengthOfWord(w[1..], tail);
    }
  }

  /** A non-empty string without separators splits into itself alone. */
  lemma {:induction false} SplitWord(w: string)
    requires w != [] && NoSpace(w)
    ensures Split(w) == [w]
  {
    WordLengthWhole(w);
    assert w[..|w|] == w;
    assert w[|w|..] == [];
  }

  lemma {:induction false} WordLengthWhole(w: string)
    requires NoSpace(w)
    ensures WordLength(w) == |w|
  {
    if w != [] {
      WordLengthWhole(w[1..]);
    }
  }

  /** A string of separators only splits into no fields at all. */
  lemma {:induction false} SplitAllSpace(s: string)
    requires forall i :: 0 <= i < |s| ==> IsSpace(s[i])
    ensures Split(s) == []
  {
    if s != [] {
      SplitAllSpace(s[1..]);
    }
  }
}
