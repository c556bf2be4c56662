/** The join and leave texts: Java's `String.replace`, which replaces every
    occurrence of its target, scanning left to right, and the decimal text
    that `"" + n` gives an integer. */
module Templates {

  /** `target` stands in `s` at position `i`. */
  predicate OccursAt(target: string, s: string, i: nat) {
    i + |target| <= |s| && s[i..i + |target|] == target
  }

  predicate Occurs(target: string, s: string) {
    exists i: nat | i <= |s| :: OccursAt(target, s, i)
  }

  /** `s.replace(target, replacement)` for a non-empty target. */
  function Replace(s: string, target: string, replacement: string): string
    requires target != []
    decreases |s|
  {
    if |s| < |target| then s
    else if s[..|target|] == target then replacement + Replace(s[|target|..], target, replacement)
    else [s[0]] + Replace(s[1..], target, replacement)
  }

  /** A prefix without the target's first character is copied unchanged. */
  lemma {:induction false} ReplaceSkipsPlainPrefix(a: string, s: string, target: string, replacement: string)
    requires target != [] && target[0] !in a
    ensures Replace(a + s, target, replacement) == a + Replace(s, target, replacement)
    decreases |a|
  {
    if a != [] {
      var t := a + s;
      assert t[0] == a[0];
      assert t[1..] == a[1..] + s;
      if |t| < |target| {
        assert |s| < |target|;
      } else {
        assert t[..|target|][0] == a[0];
        ReplaceSkipsPlainPrefix(a[1..], s, target, replacement);
        assert [a[0]] + a[1..] == a;
      }
    } else {
      assert a + s == s;
    }
  }

  /** A target at the front is replaced and the scan resumes after it. */
  lemma ReplaceAtFront(s: string, target: string, replacement: string)
    requires target != []
    ensures Replace(target + s, target, replacement) == replacement + Replace(s, target, replacement)
  {
    assert (target + s)[..|target|] == target;
    assert (target + s)[|target|..] == s;
  }

  /** A text that does not contain the target is returned unchanged. */
  lemma {:induction false} ReplaceAbsent(s: string, target: string, replacement: string)
    requires target != [] && !Occurs(target, s)
    ensures Replace(s, target, replacement) == s
    decreases |s|
  {
    if |s| >= |target| {
      assert !OccursAt(target, s, 0);
      assert s[..|target|] != target;
      var rest := s[1..];
      forall i: nat | OccursAt(target, rest, i)
        ensures false
      {
        assert s[i + 1..i + 1 + |target|] == rest[i..i + |target|];
        assert OccursAt(target, s, i + 1);
      }
      ReplaceAbsent(rest, target, replacement);
      assert [s[0]] + rest == s;
    }
  }

  predicate IsDigit(c: char) {
    '0' as int <= c as int <= '9' as int
  }

  function DigitChar(d: nat): (c: char)
    requires d < 10
    ensures IsDigit(c) && (c as int) - ('0' as int) == d
  {
    ('0' as int + d) as char
  }

  /** `Integer.toString` of a non-negative number. */
  function NatToString(n: nat): (s: string)
    ensures s != [] && forall i :: 0 <= i < |s| ==> IsDigit(s[i])
    decreases n
  {
    if n < 10 then [DigitChar(n)]
    else NatToString(n / 10) + [DigitChar(n % 10)]
  }

  /** `Integer.toString` of any number: a minus sign before the digits. */
  function IntToString(n: int): (s: string)
    ensures '{' !in s
    ensures n < 0 <==> s != [] && s[0] == '-'
  {
    var digits := NatToString(if n < 0 then -n else n);
    if n < 0 then "-" + digits else digits
  }

  /** Reads a string of decimal digits back as a number. */
  function ParseDigits(s: string): nat
    requires forall i :: 0 <= i < |s| ==> IsDigit(s[i])
    decreases |s|
  {
    if s == [] then 0
    else
      var last := s[|s| - 1];
      assert IsDigit(last);
      ParseDigits(s[..|s| - 1]) * 10 + (last as int - '0' as int)
  }

  /** The decimal text of a number reads back as that number. */
  lemma {:induction false} NatToStringRoundTrip(n: nat)
    ensures ParseDigits(NatToString(n)) == n
    decreases n
  {
    if n >= 10 {
      var s := NatToString(n);
      assert s[..|s| - 1] == NatToString(n / 10);
      assert s[|s| - 1] == DigitChar(n % 10);
      NatToStringRoundTrip(n / 10);
    }
  }

  /** The announcement: `{player}`, then `{cur}`, then `{max}` substituted, in
      that order, so a name that itself contains `{cur}` or `{max}` has those
      substituted as well. */
  function Fill(template: string, name: string, cur: nat, max: int): string {
    var withName := Replace(template, "{player}", name);
    var withCur := Replace(withName, "{cur}", NatToString(cur));
    Replace(withCur, "{max}", IntToString(max))
  }

  /** A template without placeholders and a name without braces are sent as they are. */
  lemma FillPlainTemplate(template: string, name: string, cur: nat, max: int)
    requires '{' !in template
    ensures Fill(template, name, cur, max) == template
  {
    ReplaceSkipsPlainPrefix(template, [], "{player}", name);
    assert template + [] == template;
    ReplaceSkipsPlainPrefix(template, [], "{cur}", NatToString(cur));
    ReplaceSkipsPlainPrefix(template, [], "{max}", IntToString(max));
  }

  /** Another placeholder in front (same opening brace, different second
      character) is copied unchanged. */
  lemma ReplaceSkipsOtherPlaceholder(x: string, s: string, target: string, replacement: string)
    requires |x| >= 2 && |target| >= 2
    requires x[0] == target[0] == '{' && x[1] != target[1] && '{' !in x[1..]
    ensures Replace(x + s, target, replacement) == x + Replace(s, target, replacement)
  {
    var u := x + s;
    if |u| >= |target| {
      var head := u[..|target|];
      assert head[1] == x[1];
      assert head != target;
      assert Replace(u, target, replacement) == [u[0]] + Replace(u[1..], target, replacement);
      assert u[1..] == x[1..] + s;
      ReplaceSkipsPlainPrefix(x[1..], s, target, replacement);
      assert [x[0]] + x[1..] == x;
    } else {
      assert |s| < |target|;
    }
  }

  /** A piece without braces is left alone by every substitution. */
  lemma ReplacePlain(c: string, target: string, replacement: string)
    requires target != [] && target[0] == '{' && '{' !in c
    ensures Replace(c, target, replacement) == c
  {
    ReplaceSkipsPlainPrefix(c, [], target, replacement);
    assert c + [] == c;
  }

  /** The three stages of `FillTemplate`, one placeholder each. */
  lemma NameStage(name: string, a: string, b: string, c: string)
    requires '{' !in a && '{' !in b && '{' !in c
    ensures Replace("{player}" + a + "{cur}" + b + "{max}" + c, "{player}", name) ==
            (name + a) + ("{cur}" + (b + ("{max}" + c)))
  {
    var t := "{player}";
    assert "{player}" + a + "{cur}" + b + "{max}" + c == t + (a + ("{cur}" + (b + ("{max}" + c))));
    ReplaceAtFront(a + ("{cur}" + (b + ("{max}" + c))), t, name);
    ReplaceSkipsPlainPrefix(a, "{cur}" + (b + ("{max}" + c)), t, name);
    ReplaceSkipsOtherPlaceholder("{cur}", b + ("{max}" + c), t, name);
    ReplaceSkipsPlainPrefix(b, "{max}" + c, t, name);
    ReplaceSkipsOtherPlaceholder("{max}", c, t, name);
    ReplacePlain(c, t, name);
  }

  lemma CountStage(pre: string, cs: string, b: string, c: string)
    requires '{' !in pre && '{' !in b && '{' !in c
    ensures Replace(pre + ("{cur}" + (b + ("{max}" + c))), "{cur}", cs) ==
            pre + (cs + (b + ("{max}" + c)))
  {
    var t := "{cur}";
    ReplaceSkipsPlainPrefix(pre, "{cur}" + (b + ("{max}" + c)), t, cs);
    ReplaceAtFront(b + ("{max}" + c), t, cs);
    ReplaceSkipsPlainPrefix(b, "{max}" + c, t, cs);
    ReplaceSkipsOtherPlaceholder("{max}", c, t, cs);
    ReplacePlain(c, t, cs);
  }

  lemma CapacityStage(pre: string, ms: string, c: string)
    requires '{' !in pre && '{' !in c
    ensures Replace(pre + ("{max}" + c), "{max}", ms) == pre + ms + c
  {
    var t := "{max}";
    ReplaceSkipsPlainPrefix(pre, "{max}" + c, t, ms);
    ReplaceAtFront(c, t, ms);
    ReplacePlain(c, t, ms);
  }

  /** A template `{player}a{cur}b{max}c` whose pieces and name have no braces
      announces the name, the count and the capacity in those places. */
  lemma FillTemplate(name: string, a: string, b: string, c: string, cur: nat, max: int)
    requires '{' !in name && '{' !in a && '{' !in b && '{' !in c
    ensures Fill("{player}" + a + "{cur}" + b + "{max}" + c, name, cur, max) ==
            name + a + NatToString(cur) + b + IntToString(max) + c
  {
    var cs := NatToString(cur);
    var ms := IntToString(max);
    NameStage(name, a, b, c);
    CountStage(name + a, cs, b, c);
    assert '{' !in cs;
    var pre := name + a + cs + b;
    assert (name + a) + (cs + (b + ("{max}" + c))) == pre + ("{max}" + c);
    CapacityStage(pre, ms, c);
  }

  /** A name is not protected from the later substitutions: a player called
      `{cur}` is announced as the count. */
  lemma NameIsSubstitutedToo()
    ensures Fill("{player}", "{cur}", 3, 5) == "3"
  {
    ReplaceAtFront([], "{player}", "{cur}");
    ReplaceAtFront([], "{cur}", "3");
    assert NatToString(3) == "3";
  }
}
