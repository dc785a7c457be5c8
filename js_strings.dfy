/** JavaScript's `String.prototype.trim`, which every "add" handler applies to
    its input before testing it for emptiness. */
module JsStrings {

  /** The white space and line terminator characters `trim` strips
      (ECMAScript sections 12.2 and 12.3, with the Zs category as of
      Unicode 15). */
  predicate IsTrimmable(c: char) {
    || c == '\t' || c == '\n' || c == '\U{000B}' || c == '\U{000C}' || c == '\r'
    || c == ' ' || c == '\U{00A0}' || c == '\U{1680}'
    || ('\U{2000}' <= c <= '\U{200A}')
    || c == '\U{2028}' || c == '\U{2029}' || c == '\U{202F}' || c == '\U{205F}'
    || c == '\U{3000}' || c == '\U{FEFF}'
  }

  // The trimming functions below are stated for any class `p` of
  // characters to strip; `Trim` instantiates them with `IsTrimmable`.

  /** The index of the first character at or after `i` not of class `p`,
      or `|s|` when there is none. */
  function SkipForward(p: char -> bool, s: string, i: nat): (j: nat)
    requires i <= |s|
    ensures i <= j <= |s|
    ensures forall k :: i <= k < j ==> p(s[k])
    ensures j < |s| ==> !p(s[j])
    decreases |s| - i
  {
    if i < |s| && p(s[i]) then SkipForward(p, s, i + 1) else i
  }

  /** The end of `s[lo..j]` once its trailing characters of class `p` are
      dropped. */
  function SkipBackward(p: char -> bool, s: string, lo: nat, j: nat): (e: nat)
    requires lo <= j <= |s|
    ensures lo <= e <= j
    ensures forall k :: e <= k < j ==> p(s[k])
    ensures e > lo ==> !p(s[e - 1])
    decreases j - lo
  {
    if j > lo && p(s[j - 1]) then SkipBackward(p, s, lo, j - 1) else j
  }

  /** The number of leading characters of class `p` in `s`. */
  function LeadBy(p: char -> bool, s: string): nat
    ensures LeadBy(p, s) <= |s|
  {
    SkipForward(p, s, 0)
  }

  /** The longest infix of `s` that neither starts nor ends with a
      character of class `p`; only such characters lie outside it. */
  function TrimBy(p: char -> bool, s: string): (r: string)
    ensures r == [] || (!p(r[0]) && !p(r[|r| - 1]))
    ensures LeadBy(p, s) + |r| <= |s| && r == s[LeadBy(p, s)..LeadBy(p, s) + |r|]
    ensures forall k :: 0 <= k < LeadBy(p, s) ==> p(s[k])
    ensures forall k :: LeadBy(p, s) + |r| <= k < |s| ==> p(s[k])
    ensures r == [] <==> forall k :: 0 <= k < |s| ==> p(s[k])
  {
    var lo := LeadBy(p, s);
    var hi := SkipBackward(p, s, lo, |s|);
    assert lo < hi ==> !p(s[lo]);
    s[lo..hi]
  }

  /** The number of leading white space characters of `s`. */
  function Lead(s: string): nat {
    LeadBy(IsTrimmable, s)
  }

  /** `s.trim()`: `s` without its leading and trailing white space. */
  function Trim(s: string): (r: string)
    ensures r == [] || (!IsTrimmable(r[0]) && !IsTrimmable(r[|r| - 1]))
    ensures Lead(s) + |r| <= |s| && r == s[Lead(s)..Lead(s) + |r|]
    ensures forall k :: 0 <= k < Lead(s) ==> IsTrimmable(s[k])
    ensures forall k :: Lead(s) + |r| <= k < |s| ==> IsTrimmable(s[k])
    ensures r == [] <==> forall k :: 0 <= k < |s| ==> IsTrimmable(s[k])
  {
    TrimBy(IsTrimmable, s)
  }

  /** Trimming twice is trimming once. */
  lemma TrimIdempotent(s: string)
    ensures Trim(Trim(s)) == Trim(s)
  {
    var t := Trim(s);
    if t != [] {
      assert LeadBy(IsTrimmable, t) == 0;
    }
  }
}
