/**
 * Java's `String.lastIndexOf(char)` and an ASCII model of `String.toLowerCase()`, as
 * the controller uses them; prefix, suffix and character-count helpers for the
 * specifications.
 */
module Strings {

  datatype Option<T> = None | Some(value: T)

  /** Java's `s.lastIndexOf(c)`: the index of the last occurrence of `c`, or -1. */
  function LastIndexOf(s: string, c: char): (r: int)
    ensures -1 <= r < |s|
    ensures r == -1 <==> c !in s
    ensures 0 <= r ==> s[r] == c
    ensures forall j :: r < j < |s| ==> s[j] != c
    decreases |s|
  {
    if |s| == 0 then -1
    else if s[|s| - 1] == c then |s| - 1
    else LastIndexOf(s[..|s| - 1], c)
  }

  /** The last occurrence in a concatenation is found in the right part when it has one. */
  lemma LastIndexOfAppend(a: string, b: string, c: char)
    ensures LastIndexOf(a + b, c) == if c in b then |a| + LastIndexOf(b, c) else LastIndexOf(a, c)
  {
    var s := a + b;
    if c in b {
      var k := LastIndexOf(b, c);
      assert s[|a| + k] == c;
      forall j | |a| + k < j < |s| ensures s[j] != c {
        assert s[j] == b[j - |a|];
      }
    } else {
      forall j | |a| <= j < |s| ensures s[j] != c {
        assert s[j] == b[j - |a|];
      }
      var k := LastIndexOf(a, c);
      if 0 <= k {
        assert s[k] == c;
      } else {
        assert c !in s by {
          forall j | 0 <= j < |s| ensures s[j] != c {
            if j < |a| { assert s[j] == a[j]; }
          }
        }
      }
    }
  }

  predicate StartsWith(s: string, p: string) {
    |p| <= |s| && s[..|p|] == p
  }

  predicate EndsWith(s: string, p: string) {
    |p| <= |s| && s[|s| - |p|..] == p
  }

  /** `Character.toLowerCase` restricted to ASCII: 'A'..'Z' map to 'a'..'z'. */
  function LowerChar(c: char): char {
    if 'A' <= c <= 'Z' then (c as int - 'A' as int + 'a' as int) as char else c
  }

  /** `String.toLowerCase()` restricted to ASCII letters; the length never changes. */
  function ToLower(s: string): string {
    seq(|s|, i requires 0 <= i < |s| => LowerChar(s[i]))
  }

  /** Number of occurrences of `c` in `s`. */
  function CountChar(c: char, s: string): nat {
    if |s| == 0 then 0 else (if s[0] == c then 1 else 0) + CountChar(c, s[1..])
  }

  lemma {:induction false} CountCharAppend(c: char, a: string, b: string)
    ensures CountChar(c, a + b) == CountChar(c, a) + CountChar(c, b)
  {
    if |a| == 0 {
      assert a + b == b;
    } else {
      assert (a + b)[1..] == a[1..] + b;
      CountCharAppend(c, a[1..], b);
    }
  }

  lemma {:induction false} CountCharAbsent(c: char, s: string)
    requires c !in s
    ensures CountChar(c, s) == 0
  {
    if |s| > 0 {
      assert s[0] != c;
      assert c !in s[1..];
      CountCharAbsent(c, s[1..]);
    }
  }
}
