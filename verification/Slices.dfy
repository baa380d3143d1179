/** Places in sequences. */
module Slices {
  import opened Utf8

  /** `text` stands in `src` at `pos`. */
  predicate Stands(src: Bytes, pos: nat, text: Bytes) {
    pos + |text| <= |src| && src[pos..pos + |text|] == text
  }

  lemma StandsSplit(src: Bytes, pos: nat, a: Bytes, b: Bytes)
    requires Stands(src, pos, a + b)
    ensures Stands(src, pos, a) && Stands(src, pos + |a|, b)
  {
    var w := src[pos..pos + |a + b|];
    assert w[..|a|] == a && w[|a|..] == b;
    assert src[pos..pos + |a|] == w[..|a|];
    assert src[pos + |a|..pos + |a| + |b|] == w[|a|..];
  }

  lemma StandsFour(src: Bytes, pos: nat, a: Bytes, b: Bytes, c: Bytes, d: Bytes)
    requires Stands(src, pos, a + b + c + d)
    ensures Stands(src, pos, a) && Stands(src, pos + |a|, b)
    ensures Stands(src, pos + |a| + |b|, c) && Stands(src, pos + |a| + |b| + |c|, d)
    ensures pos + |a| + |b| + |c| + |d| <= |src|
  {
    StandsSplit(src, pos, a + b + c, d);
    StandsSplit(src, pos, a + b, c);
    StandsSplit(src, pos, a, b);
  }

  lemma StandsAt(src: Bytes, pos: nat, text: Bytes, i: nat)
    requires Stands(src, pos, text) && i < |text|
    ensures pos + |text| <= |src| && src[pos + i] == text[i]
  {
    assert src[pos..pos + |text|][i] == text[i];
  }

  lemma StandsFits(src: Bytes, pos: nat, text: Bytes)
    requires Stands(src, pos, text)
    ensures pos + |text| <= |src|
  {
  }

  lemma StandsText(src: Bytes, pos: nat, text: Bytes)
    requires Stands(src, pos, text)
    ensures pos + |text| <= |src| && src[pos..pos + |text|] == text
  {
  }

  /** Where `mark` stands first, or the length when it does not. */
  function First<T(==)>(s: seq<T>, mark: T): (n: nat)
    ensures n <= |s| && (n < |s| ==> s[n] == mark) && forall i :: 0 <= i < n ==> s[i] != mark
  {
    if s == [] || s[0] == mark then 0 else 1 + First(s[1..], mark)
  }
}
