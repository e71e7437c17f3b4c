/** Strings: white space as `str.strip` and `str.isspace` see it, and joining. */
module Text {

  predicate IsSpace(c: char) {
    var n := c as int;
    || 9 <= n <= 13 || 28 <= n <= 32 || n == 0x85 || n == 0xA0 || n == 0x1680 || 0x2000 <= n <= 0x200A
    || n == 0x2028 || n == 0x2029 || n == 0x202F || n == 0x205F || n == 0x3000
  }

  function Strip(s: string): string {
    if s != "" && IsSpace(s[0]) then Strip(s[1..])
    else if s != "" && IsSpace(s[|s| - 1]) then Strip(s[..|s| - 1])
    else s
  }

  /** Stripping cuts off white space at both ends and nothing else. */
  lemma {:induction false} StripMeans(s: string) returns (i: nat, j: nat)
    ensures i <= j <= |s| && Strip(s) == s[i..j]
    ensures (forall k | 0 <= k < i || j <= k < |s| :: IsSpace(s[k])) && (i < j ==> !IsSpace(s[i]) && !IsSpace(s[j - 1]))
    decreases |s|
  {
    i, j := 0, |s|;
    if s != "" {
      if IsSpace(s[0]) {
        i, j := StripMeans(s[1..]);
        assert forall k | 0 < k < |s| :: s[k] == s[1..][k - 1];
        i, j := i + 1, j + 1;
      } else if IsSpace(s[|s| - 1]) {
        i, j := StripMeans(s[..|s| - 1]);
      }
    }
  }

  /** `sep.join(texts)`. */
  function Join(texts: seq<string>, sep: string): string
    requires texts != []
  {
    if |texts| == 1 then texts[0] else texts[0] + sep + Join(texts[1..], sep)
  }
}
