/** The few Python `str` operations the receipt code relies on, as functions
    over `seq<char>`: `replace` with one-character arguments, `rfind` of one
    character, `endswith` of one character and `join`. */
module Text {

  function Min(a: int, b: int): (m: int)
    ensures m <= a && m <= b && (m == a || m == b)
  {
    if a <= b then a else b
  }

  /** `s.replace(a, b)` for one-character `a` and `b`: every occurrence of `a`
      becomes `b`, every other character is kept, in place. */
  function ReplaceChar(s: string, a: char, b: char): (r: string)
    ensures |r| == |s|
    ensures forall i :: 0 <= i < |s| ==> r[i] == (if s[i] == a then b else s[i])
  {
    if s == [] then []
    else [if s[0] == a then b else s[0]] + ReplaceChar(s[1..], a, b)
  }

  /** `replace` works character by character, so it distributes over `+`. */
  lemma ReplaceConcat(s: string, t: string, a: char, b: char)
    ensures ReplaceChar(s + t, a, b) == ReplaceChar(s, a, b) + ReplaceChar(t, a, b)
  {
    var l, r := ReplaceChar(s + t, a, b), ReplaceChar(s, a, b) + ReplaceChar(t, a, b);
    assert |l| == |r|;
    forall i | 0 <= i < |l| ensures l[i] == r[i] {
      if i < |s| {
        assert (s + t)[i] == s[i];
      } else {
        assert (s + t)[i] == t[i - |s|];
      }
    }
  }

  /** `s.rfind(c)`: the index of the last `c` in `s`, or -1 when there is none. */
  function RFind(s: string, c: char): (k: int)
    ensures -1 <= k < |s|
    ensures k >= 0 ==> s[k] == c
    ensures forall j :: k < j < |s| ==> s[j] != c
  {
    if s == [] then -1
    else if s[|s| - 1] == c then |s| - 1
    else RFind(s[..|s| - 1], c)
  }

  /** `s.endswith(c)` for one character `c`. */
  predicate EndsWith(s: string, c: char) {
    s != [] && s[|s| - 1] == c
  }

  /** `sep.join(parts)`: nothing for no parts, the part alone for one,
      and the separator between consecutive parts otherwise. */
  function Join(parts: seq<string>, sep: string): (r: string)
    ensures parts == [] ==> r == ""
    ensures |parts| == 1 ==> r == parts[0]
    ensures |parts| == 2 ==> r == parts[0] + sep + parts[1]
    ensures |parts| >= 1 ==> parts[0] <= r
    decreases |parts|
  {
    if parts == [] then ""
    else if |parts| == 1 then parts[0]
    else parts[0] + sep + Join(parts[1..], sep)
  }
}
