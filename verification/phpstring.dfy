/**
 * The few PHP string primitives the obfuscator relies on, with PHP's
 * behaviour at the edges written out: `substr` with a negative length,
 * `substr` with a negative start, and `strpos` used as a containment test.
 */
module PhpString {

  /** `substr(s, 0, length)`: the first `length` characters, or, for a
   *  negative `length`, all but the last `-length` characters; when more
   *  characters would be dropped than there are, the empty string. */
  function Prefix(s: string, length: int): (r: string)
    ensures |r| <= |s|
    ensures r == s[..|r|]
    ensures 0 <= length <= |s| ==> |r| == length
    ensures length < 0 && -length <= |s| ==> |r| == |s| + length
    ensures length > |s| ==> r == s
    ensures length < -|s| ==> r == []
  {
    if length >= 0 then
      if length <= |s| then s[..length] else s
    else if -length <= |s| then s[..|s| + length]
    else []
  }

  /** `substr(s, -n)` for n >= 0: the last `n` characters, or the whole
   *  string when it is shorter than `n`. Since `-0` is `0`, `substr(s, -0)`
   *  is the whole string. */
  function Tail(s: string, n: nat): (r: string)
    ensures n == 0 ==> r == s
    ensures n > 0 ==> |r| == if |s| < n then |s| else n
    ensures s == s[..|s| - |r|] + r
  {
    if n == 0 || |s| < n then s else s[|s| - n..]
  }

  /** `strpos(haystack, needle) !== false`: `needle` occurs somewhere in
   *  `haystack`, that is, it is a prefix of one of its suffixes. */
  predicate Contains(haystack: string, needle: string): (r: bool)
    ensures r <==> exists i | 0 <= i <= |haystack| - |needle| :: needle <= haystack[i..]
    ensures needle <= haystack ==> r
    ensures r ==> |needle| <= |haystack|
  {
    assert forall i | 0 <= i <= |haystack| - |needle| :: OccursAt(haystack, needle, i) <==> needle <= haystack[i..];
    assert needle <= haystack ==> OccursAt(haystack, needle, 0);
    exists i | 0 <= i <= |haystack| :: OccursAt(haystack, needle, i)
  }

  /** `needle` occurs in `haystack` starting at position `i` */
  predicate OccursAt(haystack: string, needle: string, i: int) {
    0 <= i <= |haystack| - |needle| && haystack[i..i + |needle|] == needle
  }
}
