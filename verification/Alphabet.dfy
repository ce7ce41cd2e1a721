/** Strings over a digit alphabet. */
module Alphabet {
  import opened Wrappers
  import opened Horner

  ghost predicate Distinct(a: string) {
    forall i, j | 0 <= i < j < |a| :: a[i] != a[j]
  }

  /** The first index of a character. */
  function IndexOf(a: string, c: char): (r: Option<nat>)
    ensures r.Some? ==> r.value < |a| && a[r.value] == c
    ensures r.None? ==> c !in a
  {
    if a == [] then None
    else
      var n := |a| - 1;
      var before := IndexOf(a[..n], c);
      if before.Some? then before else if a[n] == c then Some(n) else assert a == a[..n] + [a[n]]; None
  }

  /** Digits written in the alphabet. */
  function Chars(a: string, ds: seq<nat>): (r: string)
    requires Digital(ds, |a|)
    ensures |r| == |ds|
  {
    seq(|ds|, i requires 0 <= i < |ds| => a[ds[i]])
  }

  lemma CharsAppend(a: string, x: seq<nat>, y: seq<nat>)
    requires Digital(x, |a|) && Digital(y, |a|)
    ensures Digital(x + y, |a|) && Chars(a, x + y) == Chars(a, x) + Chars(a, y)
  {
  }

  ghost predicate Written(a: string, s: string) {
    forall i | 0 <= i < |s| :: s[i] in a
  }

  /** The digits of a string, if it is written in the alphabet. */
  function Indices(a: string, s: string): (r: Option<seq<nat>>)
    ensures r.Some? ==> |r.value| == |s| && Digital(r.value, |a|) && forall i | 0 <= i < |s| :: a[r.value[i]] == s[i]
    ensures r.None? ==> !Written(a, s)
  {
    if s == [] then Some([])
    else
      var n := |s| - 1;
      var before, last := Indices(a, s[..n]), IndexOf(a, s[n]);
      if before.None? then assert !Written(a, s[..n]); None
      else if last.None? then None
      else Some(before.value + [last.value])
  }

  method ReadDigits(a: string, s: string) returns (r: Option<seq<nat>>)
    ensures r == Indices(a, s)
  {
    var ds: seq<nat> := [];
    for i := 0 to |s|
      invariant Indices(a, s[..i]) == Some(ds)
    {
      assert s[..i + 1][..i] == s[..i];
      var d := IndexOf(a, s[i]);
      if d.None? {
        Unreadable(a, s, i);
        return None;
      }
      ds := ds + [d.value];
    }
    assert s[..|s|] == s;
    return Some(ds);
  }

  lemma Unreadable(a: string, s: string, i: nat)
    requires i < |s|
    ensures s[i] !in a ==> Indices(a, s).None?
  {
    if Indices(a, s).Some? {
      assert a[Indices(a, s).value[i]] == s[i];
    }
  }

  /** Reading back what was written. */
  lemma IndicesOfChars(a: string, ds: seq<nat>)
    requires Distinct(a) && Digital(ds, |a|)
    ensures Indices(a, Chars(a, ds)) == Some(ds)
  {
    var s := Chars(a, ds);
    var r := Indices(a, s);
    assert Written(a, s);
    forall i | 0 <= i < |ds| ensures r.value[i] == ds[i] {
      assert a[r.value[i]] == a[ds[i]];
    }
    assert r.value == ds;
  }
}
