/** The two pieces of Python string handling the battery module depends on:
    `str.strip()` on the status file and the decimal rendering of a
    non-negative integer. */
module Text {

  /** Whitespace as Python 2's argument-less `str.strip()` sees it: space,
      tab, line feed, vertical tab, form feed and carriage return. */
  predicate IsSpace(c: char) {
    c == ' ' || '\t' <= c <= '\r'
  }

  predicate AllSpace(s: string) {
    forall k :: 0 <= k < |s| ==> IsSpace(s[k])
  }

  /** Removes the leading whitespace of `s`. */
  function StripLeft(s: string): (r: string)
    ensures |r| <= |s| && r == s[|s| - |r|..]
    ensures AllSpace(s[..|s| - |r|])
    ensures r != [] ==> !IsSpace(r[0])
    ensures AllSpace(s) <==> r == []
  {
    if s != [] && IsSpace(s[0]) then
      var t := s[1..];
      var r := StripLeft(t);
      assert t[|t| - |r|..] == s[|s| - |r|..];
      assert s[..|s| - |r|] == [s[0]] + t[..|t| - |r|];
      assert AllSpace(s) ==> AllSpace(t);
      r
    else
      s
  }

  /** Removes the trailing whitespace of `s`. */
  function StripRight(s: string): (r: string)
    ensures |r| <= |s| && r == s[..|r|]
    ensures AllSpace(s[|r|..])
    ensures r != [] ==> !IsSpace(r[|r| - 1])
    ensures AllSpace(s) <==> r == []
  {
    if s != [] && IsSpace(s[|s| - 1]) then
      var r := StripRight(s[..|s| - 1]);
      assert s[|r|..] == s[..|s| - 1][|r|..] + [s[|s| - 1]];
      r
    else
      s
  }

  /** Python 2's `str.strip()`: `s` without its leading and trailing whitespace. */
  function Strip(s: string): (r: string)
    ensures |r| <= |s|
    ensures r != [] ==> !IsSpace(r[0]) && !IsSpace(r[|r| - 1])
    ensures AllSpace(s) <==> r == []
    ensures var l := StripLeft(s);
            |r| <= |l| && r == l[..|r|] && AllSpace(l[|r|..])
  {
    var l := StripLeft(s);
    var r := StripRight(l);
    assert r != [] ==> r[0] == l[0];
    r
  }

  /** Strip keeps a slice of `s`: past the leading whitespace it removes,
      the result is a prefix of the rest, and what follows it is whitespace. */
  lemma StripIsSlice(s: string)
    ensures var l := StripLeft(s);
            var i := |s| - |l|;
            var r := Strip(s);
            && AllSpace(s[..i])
            && l == s[i..]
            && |r| <= |l| && r == l[..|r|]
            && AllSpace(l[|r|..])
  {
    assert Strip(s) == StripRight(StripLeft(s));
  }

  lemma {:induction false} StripLeftSkipsSpace(pre: string, rest: string)
    requires AllSpace(pre)
    ensures StripLeft(pre + rest) == StripLeft(rest)
  {
    var s := pre + rest;
    if pre == [] {
      assert s == rest;
    } else {
      var p := pre[1..];
      assert AllSpace(p) by {
        forall k | 0 <= k < |p| ensures IsSpace(p[k]) {
          assert p[k] == pre[k + 1];
        }
      }
      assert s[0] == pre[0];
      assert s[1..] == p + rest;
      calc {
        StripLeft(s);
        StripLeft(p + rest);
        { StripLeftSkipsSpace(p, rest); }
        StripLeft(rest);
      }
    }
  }

  lemma {:induction false} StripRightSkipsSpace(rest: string, post: string)
    requires AllSpace(post)
    ensures StripRight(rest + post) == StripRight(rest)
  {
    var s := rest + post;
    if post == [] {
      assert s == rest;
    } else {
      var p := post[..|post| - 1];
      assert s[|s| - 1] == post[|post| - 1];
      assert StripRight(s) == StripRight(s[..|s| - 1]);
      assert s[..|s| - 1] == rest + p;
      assert AllSpace(p) by {
        forall k | 0 <= k < |p| ensures IsSpace(p[k]) {
          assert p[k] == post[k];
        }
      }
      StripRightSkipsSpace(rest, p);
    }
  }

  /** Strip undoes whitespace padding: a core that neither starts nor ends
      with whitespace comes back unchanged from any padding around it. */
  lemma StripPadded(pre: string, core: string, post: string)
    requires AllSpace(pre) && AllSpace(post)
    requires core != [] ==> !IsSpace(core[0]) && !IsSpace(core[|core| - 1])
    ensures Strip(pre + core + post) == core
  {
    var s := pre + core + post;
    assert s == pre + (core + post);
    if core == [] {
      assert core + post == post;
      calc {
        Strip(s);
        StripRight(StripLeft(pre + post));
        { StripLeftSkipsSpace(pre, post); }
        StripRight(StripLeft(post));
        StripRight([]);
      }
    } else {
      calc {
        Strip(s);
        StripRight(StripLeft(pre + (core + post)));
        { StripLeftSkipsSpace(pre, core + post); }
        StripRight(StripLeft(core + post));
        { assert (core + post)[0] == core[0]; }
        StripRight(core + post);
        { StripRightSkipsSpace(core, post); }
        StripRight(core);
        core;
      }
    }
  }

  /** Stripping twice is stripping once. */
  lemma StripIdempotent(s: string)
    ensures Strip(Strip(s)) == Strip(s)
  {
    var r := Strip(s);
    if r != [] {
      calc {
        Strip(r);
        StripRight(StripLeft(r));
        StripRight(r);
        r;
      }
    }
  }

  predicate IsDigit(c: char) {
    '0' <= c <= '9'
  }

  predicate AllDigits(s: string) {
    forall k :: 0 <= k < |s| ==> IsDigit(s[k])
  }

  function DigitValue(c: char): (d: nat)
    requires IsDigit(c)
    ensures d < 10
  {
    c as int - '0' as int
  }

  function DigitChar(d: nat): (c: char)
    requires d < 10
    ensures IsDigit(c) && DigitValue(c) == d
  {
    ('0' as int + d) as char
  }

  /** The decimal numeral of `n`, as Python prints a non-negative integer:
      digits only, never empty, no leading zero except for zero itself. */
  function Decimal(n: nat): (s: string)
    ensures s != [] && AllDigits(s)
    ensures s[0] == '0' ==> n == 0 && |s| == 1
  {
    if n < 10 then [DigitChar(n)] else Decimal(n / 10) + [DigitChar(n % 10)]
  }

  /** The number a string of decimal digits denotes. */
  function Value(s: string): nat
    requires AllDigits(s)
  {
    if s == [] then 0 else 10 * Value(s[..|s| - 1]) + DigitValue(s[|s| - 1])
  }

  /** Reading the numeral back gives the number: rendering loses nothing. */
  lemma {:induction false} ValueOfDecimal(n: nat)
    ensures Value(Decimal(n)) == n
  {
    if n >= 10 {
      var s := Decimal(n);
      assert s[..|s| - 1] == Decimal(n / 10);
      ValueOfDecimal(n / 10);
    }
  }

  /** Distinct numbers have distinct numerals. */
  lemma DecimalInjective(m: nat, n: nat)
    ensures Decimal(m) == Decimal(n) <==> m == n
  {
    ValueOfDecimal(m);
    ValueOfDecimal(n);
  }
}
