/**
 * The fragment of `java.util.regex` syntax that the validators use, with the meaning
 * `String.matches` gives a pattern: the WHOLE string must be matched, so the `^` and
 * `$` anchors of the source patterns add nothing and are not represented.
 */
module Pattern {

  /** An inclusive character range of a bracket expression, `a-z`; a single character is `c-c`. */
  datatype Range = Range(lo: char, hi: char)

  datatype Re =
    | Class(ranges: seq<Range>)   // `[...]`: one character from any of the ranges
    | Cat(first: Re, second: Re)  // juxtaposition
    | Alt(left: Re, right: Re)    // `|`
    | Plus(body: Re)              // `+`: one or more repetitions

  /** A literal character. */
  function Lit(c: char): Re {
    Class([Range(c, c)])
  }

  predicate InClass(c: char, ranges: seq<Range>) {
    exists r :: r in ranges && r.lo <= c <= r.hi
  }

  /** `re` matches all of `s`. */
  predicate Matches(re: Re, s: string)
    decreases re, |s|
  {
    match re
    case Class(rs) => |s| == 1 && InClass(s[0], rs)
    case Cat(a, b) => exists k :: 0 <= k <= |s| && Matches(a, s[..k]) && Matches(b, s[k..])
    case Alt(a, b) => Matches(a, s) || Matches(b, s)
    case Plus(r) =>
      Matches(r, s) || exists k :: 0 < k < |s| && Matches(r, s[..k]) && Matches(Plus(r), s[k..])
  }

  /** A run of one or more characters of a class: non-empty, and every character is in the class. */
  lemma {:induction false} PlusClass(rs: seq<Range>, s: string)
    ensures Matches(Plus(Class(rs)), s) <==> |s| >= 1 && forall k :: 0 <= k < |s| ==> InClass(s[k], rs)
    decreases |s|
  {
    if |s| >= 2 {
      PlusClass(rs, s[1..]);
      if Matches(Plus(Class(rs)), s) {
        assert !Matches(Class(rs), s);
        var k :| 0 < k < |s| && Matches(Class(rs), s[..k]) && Matches(Plus(Class(rs)), s[k..]);
        assert k == 1 && s[k..] == s[1..];
        forall i | 0 <= i < |s| ensures InClass(s[i], rs) {
          if i > 0 {
            assert s[i] == s[1..][i - 1];
          } else {
            assert s[..1][0] == s[0];
          }
        }
      }
      if forall k :: 0 <= k < |s| ==> InClass(s[k], rs) {
        assert forall k :: 0 <= k < |s[1..]| ==> s[1..][k] == s[k + 1];
        assert s[..1][0] == s[0];
        assert Matches(Class(rs), s[..1]) && Matches(Plus(Class(rs)), s[1..]);
      }
    }
  }

  /**
   * A concatenation whose first part only matches strings of length `n` splits at `n`.
   */
  lemma CatFixed(a: Re, b: Re, n: nat, s: string)
    requires forall t :: Matches(a, t) ==> |t| == n
    ensures Matches(Cat(a, b), s) <==> |s| >= n && Matches(a, s[..n]) && Matches(b, s[n..])
  {
    if |s| >= n && Matches(a, s[..n]) && Matches(b, s[n..]) {
      assert 0 <= n <= |s| && Matches(a, s[..n]) && Matches(b, s[n..]);
    }
  }

  /** A pair of classes matches exactly the two-character strings drawn from them. */
  lemma ClassPair(a: seq<Range>, b: seq<Range>, s: string)
    ensures Matches(Cat(Class(a), Class(b)), s) <==> |s| == 2 && InClass(s[0], a) && InClass(s[1], b)
  {
    CatFixed(Class(a), Class(b), 1, s);
    if |s| == 2 {
      assert s[..1][0] == s[0] && s[1..][0] == s[1];
    }
  }
}
