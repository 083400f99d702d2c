/**
 * String operations the components rely on, in the forms this model uses:
 * a character-by-character comparison standing in for `localeCompare`, ASCII case
 * mapping standing in for `toLowerCase`/`toUpperCase`, and `includes`.
 */
module Text {

  /** `a` sorts strictly before `b`, comparing characters (Unicode scalar values) left to right. */
  predicate Less(a: string, b: string)
    decreases |a|
  {
    if |a| == 0 then |b| > 0
    else if |b| == 0 then false
    else if a[0] != b[0] then a[0] < b[0]
    else Less(a[1..], b[1..])
  }

  predicate LessEq(a: string, b: string)
  {
    a == b || Less(a, b)
  }

  lemma {:induction false} LessIrreflexive(a: string)
    ensures !Less(a, a)
    decreases |a|
  {
    if |a| > 0 {
      LessIrreflexive(a[1..]);
    }
  }

  lemma {:induction false} LessTransitive(a: string, b: string, c: string)
    requires Less(a, b) && Less(b, c)
    ensures Less(a, c)
    decreases |a|
  {
    if |a| > 0 && |b| > 0 && |c| > 0 && a[0] == b[0] && b[0] == c[0] {
      LessTransitive(a[1..], b[1..], c[1..]);
    }
  }

  lemma {:induction false} LessTrichotomy(a: string, b: string)
    ensures Less(a, b) || a == b || Less(b, a)
    decreases |a|
  {
    if |a| > 0 && |b| > 0 && a[0] == b[0] {
      LessTrichotomy(a[1..], b[1..]);
      if a[1..] == b[1..] {
        assert a == [a[0]] + a[1..] && b == [b[0]] + b[1..];
      }
    }
  }

  lemma LessAsymmetric(a: string, b: string)
    requires Less(a, b)
    ensures !Less(b, a)
  {
    if Less(b, a) {
      LessTransitive(a, b, a);
      LessIrreflexive(a);
    }
  }

  /** A proper prefix sorts before the strings it begins. */
  lemma {:induction false} PrefixLess(a: string, b: string)
    requires |a| < |b| && b[..|a|] == a
    ensures Less(a, b)
    decreases |a|
  {
    if |a| > 0 {
      assert b[1..][..|a| - 1] == a[1..];
      PrefixLess(a[1..], b[1..]);
    }
  }

  /** No string sorts strictly before one of its prefixes. */
  lemma {:induction false} NotLessThanPrefix(a: string, b: string)
    requires |b| <= |a| && a[..|b|] == b
    ensures !Less(a, b)
    decreases |b|
  {
    if |b| > 0 {
      assert a[1..][..|b| - 1] == b[1..];
      NotLessThanPrefix(a[1..], b[1..]);
    }
  }

  /** ASCII `toLowerCase` of one character. */
  function LowerChar(c: char): char
  {
    if 'A' <= c <= 'Z' then (c as int + 32) as char else c
  }

  /** ASCII `toUpperCase` of one character. */
  function UpperChar(c: char): char
  {
    if 'a' <= c <= 'z' then (c as int - 32) as char else c
  }

  /** `toLowerCase`: no capital ASCII letter remains, and a string without one is unchanged. */
  function Lower(s: string): (r: string)
    ensures |r| == |s|
    ensures forall i :: 0 <= i < |s| ==> r[i] == LowerChar(s[i])
    ensures forall i :: 0 <= i < |r| ==> !('A' <= r[i] <= 'Z')
    ensures (forall i :: 0 <= i < |s| ==> !('A' <= s[i] <= 'Z')) ==> r == s
  {
    seq(|s|, i requires 0 <= i < |s| => LowerChar(s[i]))
  }

  /** `toUpperCase`: no small ASCII letter remains, and a string without one is unchanged. */
  function Upper(s: string): (r: string)
    ensures |r| == |s|
    ensures forall i :: 0 <= i < |s| ==> r[i] == UpperChar(s[i])
    ensures forall i :: 0 <= i < |r| ==> !('a' <= r[i] <= 'z')
    ensures (forall i :: 0 <= i < |s| ==> !('a' <= s[i] <= 'z')) ==> r == s
  {
    seq(|s|, i requires 0 <= i < |s| => UpperChar(s[i]))
  }

  /** `s.includes(t)`: `t` occurs in `s` as a contiguous block. */
  predicate Contains(s: string, t: string)
    decreases |s|
  {
    (|t| <= |s| && s[..|t|] == t) || (|s| > 0 && Contains(s[1..], t))
  }

  /** `t` occurs in `s` as a contiguous block starting at position `i`. */
  predicate BlockAt(s: string, t: string, i: nat)
  {
    i + |t| <= |s| && s[i..i + |t|] == t
  }

  /** A block occurrence anywhere is found by `Contains`. */
  lemma {:induction false} ContainsAt(s: string, t: string, i: nat)
    requires BlockAt(s, t, i)
    ensures Contains(s, t)
    decreases i
  {
    if i > 0 {
      assert s[1..][i - 1..i - 1 + |t|] == s[i..i + |t|];
      ContainsAt(s[1..], t, i - 1);
    }
  }

  /** Conversely, whatever `Contains` accepts occurs as a block somewhere. */
  lemma {:induction false} SomeBlock(s: string, t: string)
    requires Contains(s, t)
    ensures exists i: nat :: BlockAt(s, t, i)
    decreases |s|
  {
    if |t| <= |s| && s[..|t|] == t {
      assert BlockAt(s, t, 0);
    } else {
      SomeBlock(s[1..], t);
      var i: nat :| BlockAt(s[1..], t, i);
      assert s[1..][i..i + |t|] == s[i + 1..i + 1 + |t|];
      assert BlockAt(s, t, i + 1);
    }
  }

  /** `Contains` is exactly the block-occurrence reading of `includes`. */
  lemma ContainsIffBlock(s: string, t: string)
    ensures Contains(s, t) <==> exists i: nat :: BlockAt(s, t, i)
  {
    if Contains(s, t) {
      SomeBlock(s, t);
    }
    if exists i: nat :: BlockAt(s, t, i) {
      var i: nat :| BlockAt(s, t, i);
      ContainsAt(s, t, i);
    }
  }
}
