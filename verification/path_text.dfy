/** The Python string and path operations the category analysis relies on:
    `str.startswith`, the substring test `in`, `str.rfind`,
    `os.path.splitext` (POSIX flavour) and `str.capitalize` (ASCII letters). */
module PathText {

  /** `s.startswith(prefix)`. */
  predicate StartsWith(s: string, prefix: string)
    ensures StartsWith(s, prefix)
        <==> |prefix| <= |s| && forall i :: 0 <= i < |prefix| ==> s[i] == prefix[i]
  {
    |prefix| <= |s| && s[..|prefix|] == prefix
  }

  /** `sub` occurs in `s` starting at index `i`. */
  predicate OccursAt(s: string, sub: string, i: int)
  {
    0 <= i && i + |sub| <= |s| && s[i..i + |sub|] == sub
  }

  /** `sub in s`, tried at each starting position from the left. */
  predicate Contains(s: string, sub: string)
    ensures Contains(s, sub) ==> |sub| <= |s|
    ensures |sub| == 0 ==> Contains(s, sub)
    decreases |s|
  {
    StartsWith(s, sub) || (|s| > 0 && Contains(s[1..], sub))
  }

  /** The left-to-right scan finds `sub` exactly when it occurs somewhere. */
  lemma {:induction false} ContainsOccurs(s: string, sub: string)
    ensures Contains(s, sub) <==> exists i :: OccursAt(s, sub, i)
    decreases |s|
  {
    if StartsWith(s, sub) {
      assert OccursAt(s, sub, 0);
    } else if |s| > 0 {
      ContainsOccurs(s[1..], sub);
      if exists i :: OccursAt(s[1..], sub, i) {
        var i :| OccursAt(s[1..], sub, i);
        assert s[i + 1..i + 1 + |sub|] == s[1..][i..i + |sub|];
        assert OccursAt(s, sub, i + 1);
      }
      if exists i :: OccursAt(s, sub, i) {
        var i :| OccursAt(s, sub, i);
        assert i != 0;
        assert s[1..][i - 1..i - 1 + |sub|] == s[i..i + |sub|];
        assert OccursAt(s[1..], sub, i - 1);
      }
    }
  }

  /** `s.rfind(c)`: the index of the last `c` in `s`, or -1 when there is none. */
  function RFind(s: string, c: char): (r: int)
    ensures -1 <= r < |s|
    ensures r >= 0 ==> s[r] == c
    ensures forall j :: r < j < |s| ==> s[j] != c
    decreases |s|
  {
    if s == [] then -1
    else if s[|s| - 1] == c then |s| - 1
    else RFind(s[..|s| - 1], c)
  }

  /** `os.path.splitext(p)` with separator '/' and extension separator '.':
      the extension starts at the last '.', provided that dot lies in the last
      path component and is preceded there by some character other than '.'
      (leading dots of a file name belong to the root); otherwise it is empty. */
  function SplitExt(p: string): (r: (string, string))
    ensures r.0 + r.1 == p
    ensures r.1 == [] || (r.1[0] == '.' && '.' !in r.1[1..] && '/' !in r.1)
  {
    var sepIndex := RFind(p, '/');
    var dotIndex := RFind(p, '.');
    if dotIndex > sepIndex && exists k :: sepIndex < k < dotIndex && p[k] != '.' then
      assert p[..dotIndex] + p[dotIndex..] == p;
      (p[..dotIndex], p[dotIndex..])
    else
      (p, [])
  }

  /** A path has an extension exactly when its last component holds a '.'
      preceded, within that component, by some character other than '.'. */
  lemma SplitExtHasExtension(p: string)
    ensures SplitExt(p).1 != []
        <==> exists k, i :: RFind(p, '/') < k < i < |p| && p[k] != '.' && p[i] == '.'
  {
    var sepIndex := RFind(p, '/');
    var dotIndex := RFind(p, '.');
    if SplitExt(p).1 != [] {
      var k :| sepIndex < k < dotIndex && p[k] != '.';
      assert p[dotIndex] == '.';
    }
    if exists k, i :: sepIndex < k < i < |p| && p[k] != '.' && p[i] == '.' {
      var k, i :| sepIndex < k < i < |p| && p[k] != '.' && p[i] == '.';
      assert i <= dotIndex;
      assert sepIndex < k < dotIndex && p[k] != '.';
    }
  }

  /** ASCII upper-casing; every other character is left alone. */
  function Upper(c: char): char
  {
    if 'a' <= c <= 'z' then (c as int - 32) as char else c
  }

  /** ASCII lower-casing; every other character is left alone. */
  function Lower(c: char): char
  {
    if 'A' <= c <= 'Z' then (c as int + 32) as char else c
  }

  /** `s.capitalize()`: only the case of ASCII letters changes; the result
      starts with no lower-case letter and has no upper-case letter after
      that, and a string already in that form is returned unchanged. */
  function Capitalize(s: string): (r: string)
    ensures |r| == |s|
    ensures forall i :: 0 <= i < |s| ==> Lower(r[i]) == Lower(s[i])
    ensures IsCapitalized(r)
    ensures IsCapitalized(s) ==> r == s
  {
    if s == [] then [] else [Upper(s[0])] + seq(|s| - 1, i requires 0 <= i < |s| - 1 => Lower(s[i + 1]))
  }

  /** No ASCII lower-case letter first, no ASCII upper-case letter after it. */
  predicate IsCapitalized(s: string)
  {
    && (|s| > 0 ==> !('a' <= s[0] <= 'z'))
    && forall i :: 0 < i < |s| ==> !('A' <= s[i] <= 'Z')
  }
}
