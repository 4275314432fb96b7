/** The handful of Python `str` operations the build script and the proxy rely on:
    `startswith`, `endswith`, the `in` substring test and `split("==")`. */
module Strings {

  /** `s.startswith(p)` */
  predicate StartsWith(s: string, p: string) {
    |p| <= |s| && s[..|p|] == p
  }

  /** `s.endswith(p)` */
  predicate EndsWith(s: string, p: string) {
    |p| <= |s| && s[|s| - |p|..] == p
  }

  /** An occurrence of `sub` starts at position `i` of `s`. */
  predicate OccursAt(s: string, sub: string, i: int) {
    0 <= i <= |s| - |sub| && s[i..i + |sub|] == sub
  }

  /** `sub in s`: some position of `s` starts an occurrence of `sub`. */
  predicate Contains(s: string, sub: string) {
    exists i :: 0 <= i <= |s| - |sub| && OccursAt(s, sub, i)
  }

  /** A one-character needle is found exactly when the character occurs. */
  lemma ContainsChar(s: string, c: char)
    ensures Contains(s, [c]) <==> c in s
  {
    if c in s {
      var i :| 0 <= i < |s| && s[i] == c;
      assert s[i..i + 1] == [c];
      assert OccursAt(s, [c], i);
    }
    if Contains(s, [c]) {
      var i :| 0 <= i <= |s| - 1 && OccursAt(s, [c], i);
      assert s[i..i + 1][0] == s[i];
    }
  }

  /** The separator of pip's `name==version` requirement lines. */
  const Sep: string := "=="

  /** Two `=` characters start at position `j` of `s`. */
  predicate SepAt(s: string, j: int) {
    0 <= j && j + 1 < |s| && s[j] == '=' && s[j + 1] == '='
  }

  /** `s` holds no occurrence of the separator. */
  predicate NoSep(s: string) {
    forall j :: 0 <= j < |s| ==> !SepAt(s, j)
  }

  /** The position of the leftmost separator in `s`, or `|s|` when there is none. */
  function FirstSep(s: string): (k: nat)
    ensures k <= |s|
    ensures k < |s| ==> SepAt(s, k)
    ensures forall j :: j < k ==> !SepAt(s, j)
    decreases |s|
  {
    if |s| < 2 then |s|
    else if SepAt(s, 0) then 0
    else
      var k := 1 + FirstSep(s[1..]);
      assert forall j :: 1 <= j ==> (SepAt(s, j) <==> SepAt(s[1..], j - 1));
      k
  }

  /** No separator at all exactly when `FirstSep` runs to the end. */
  lemma FirstSepFinds(s: string)
    ensures FirstSep(s) == |s| <==> NoSep(s)
  {
    if FirstSep(s) == |s| {
      forall j | 0 <= j < |s| ensures !SepAt(s, j) {
      }
    }
  }

  /** Python's `s.split("==")`: cuts at every leftmost, non-overlapping
      occurrence of the separator. */
  function Split(s: string): (parts: seq<string>)
    ensures |parts| >= 1
    decreases |s|
  {
    var k := FirstSep(s);
    if k == |s| then [s] else [s[..k]] + Split(s[k + 2..])
  }

  /** `"==".join(parts)` */
  function Join(parts: seq<string>): string
    requires |parts| >= 1
    decreases |parts|
  {
    if |parts| == 1 then parts[0] else parts[0] + Sep + Join(parts[1..])
  }

  /** Splitting loses nothing: joining the parts gives the input back. */
  lemma {:induction false} JoinSplit(s: string)
    ensures Join(Split(s)) == s
    decreases |s|
  {
    var k := FirstSep(s);
    if k < |s| {
      JoinSplit(s[k + 2..]);
      var parts := Split(s);
      assert parts[1..] == Split(s[k + 2..]);
      assert s == s[..k] + s[k..k + 2] + s[k + 2..];
    }
  }

  /** The text before the first separator holds none and does not end with `=`. */
  lemma HeadShape(s: string)
    requires FirstSep(s) < |s|
    ensures NoSep(s[..FirstSep(s)])
    ensures !EndsWith(s[..FirstSep(s)], "=")
  {
    var k := FirstSep(s);
    var head := s[..k];
    forall j | 0 <= j < |head| ensures !SepAt(head, j) {
      if j + 1 < |head| {
        assert head[j] == s[j] && head[j + 1] == s[j + 1];
        assert !SepAt(s, j);
      }
    }
    if k > 0 {
      assert !SepAt(s, k - 1);
      assert SepAt(s, k);
      assert head[k - 1] == s[k - 1] != '=';
      assert head[|head| - 1..] == [head[k - 1]];
    }
  }

  /** The parts never contain the separator, and every part but the last
      does not end with `=` (else the cut would have been one place earlier). */
  lemma {:induction false} SplitShape(s: string)
    ensures forall i :: 0 <= i < |Split(s)| ==> NoSep(Split(s)[i])
    ensures forall i :: 0 <= i < |Split(s)| - 1 ==> !EndsWith(Split(s)[i], "=")
    decreases |s|
  {
    var k := FirstSep(s);
    FirstSepFinds(s);
    if k < |s| {
      SplitShape(s[k + 2..]);
      HeadShape(s);
      assert Split(s) == [s[..k]] + Split(s[k + 2..]);
    }
  }

  /** A `name==version` line splits back into its two halves when neither half
      holds the separator and the name does not end with `=`. */
  lemma SplitPin(name: string, version: string)
    requires NoSep(name) && !EndsWith(name, "=") && NoSep(version)
    ensures Split(name + Sep + version) == [name, version]
  {
    var s := name + Sep + version;
    var k := FirstSep(s);
    assert SepAt(s, |name|);
    forall j | 0 <= j < |name| ensures !SepAt(s, j) {
      if j + 1 < |name| {
        assert SepAt(s, j) ==> SepAt(name, j);
      } else {
        assert name[|name| - 1..] == [s[j]];
      }
    }
    assert k == |name|;
    assert s[..k] == name;
    assert s[k + 2..] == version;
    FirstSepFinds(version);
    assert Split(version) == [version];
  }
}
