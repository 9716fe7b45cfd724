/** Python's notion of white space, stripping it, and decimal texts. */
module PythonText {
  /** What Python strips and what a regular expression calls white space. */
  predicate IsSpace(c: char) {
    var n := c as int;
    || 9 <= n <= 13 || 28 <= n <= 32 || n == 0x85 || n == 0xA0 || n == 0x1680 || 0x2000 <= n <= 0x200A
    || n == 0x2028 || n == 0x2029 || n == 0x202F || n == 0x205F || n == 0x3000
  }

  function LStrip(s: string): (r: string)
    ensures |r| <= |s|
  {
    if s != "" && IsSpace(s[0]) then LStrip(s[1..]) else s
  }

  function RStrip(s: string): (r: string)
    ensures |r| <= |s|
  {
    if s != "" && IsSpace(s[|s| - 1]) then RStrip(s[..|s| - 1]) else s
  }

  function Strip(s: string): string { RStrip(LStrip(s)) }

  predicate AllSpace(t: string) { forall i | 0 <= i < |t| :: IsSpace(t[i]) }

  /** Stripping removes exactly the white space around a text that has none at its ends. */
  lemma {:induction false} StripPadded(pre: string, core: string, post: string)
    requires AllSpace(pre) && AllSpace(post)
    requires core != "" ==> !IsSpace(core[0]) && !IsSpace(core[|core| - 1])
    ensures Strip(pre + core + post) == core
  {
    LStripPadded(pre, core + post);
    assert pre + core + post == pre + (core + post);
    if core == "" {
      assert core + post == post + "";
      LStripPadded(post, "");
      assert Strip(pre + core + post) == "";
    } else {
      assert LStrip(core + post) == core + post;
      RStripPadded(core, post);
    }
  }

  lemma {:induction false} LStripPadded(pre: string, rest: string)
    requires AllSpace(pre)
    ensures LStrip(pre + rest) == LStrip(rest)
  {
    if pre != "" {
      assert (pre + rest)[1..] == pre[1..] + rest;
      LStripPadded(pre[1..], rest);
    } else {
      assert pre + rest == rest;
    }
  }

  lemma {:induction false} RStripPadded(core: string, post: string)
    requires AllSpace(post)
    ensures RStrip(core + post) == RStrip(core)
  {
    if post != "" {
      var n := |post| - 1;
      assert (core + post)[..|core + post| - 1] == core + post[..n];
      RStripPadded(core, post[..n]);
    } else {
      assert core + post == core;
    }
  }

  lemma {:induction false} LStripStart(s: string)
    ensures LStrip(s) != "" ==> !IsSpace(LStrip(s)[0])
  {
    if s != "" && IsSpace(s[0]) { LStripStart(s[1..]); }
  }

  lemma {:induction false} RStripEnd(s: string)
    ensures RStrip(s) != "" ==> !IsSpace(RStrip(s)[|RStrip(s)| - 1]) && s != "" && RStrip(s)[0] == s[0]
  {
    if s != "" && IsSpace(s[|s| - 1]) { RStripEnd(s[..|s| - 1]); }
  }

  /** What is left after stripping has no white space at its ends, so stripping it again changes nothing. */
  lemma StripTwice(s: string)
    ensures var t := Strip(s); t != "" ==> !IsSpace(t[0]) && !IsSpace(t[|t| - 1])
    ensures Strip(Strip(s)) == Strip(s)
  {
    LStripStart(s);
    RStripEnd(LStrip(s));
    var t := Strip(s);
    StripPadded("", t, "");
    assert "" + t + "" == t;
  }

  // ---- decimal numbers ----

  function Decimal(n: nat): string {
    if n < 10 then [('0' as int + n) as char] else Decimal(n / 10) + [('0' as int + n % 10) as char]
  }

  /** Different numbers have different decimal texts. */
  lemma {:induction false} DecimalInjective(m: nat, n: nat)
    requires Decimal(m) == Decimal(n)
    ensures m == n
  {
    var a, b := Decimal(m), Decimal(n);
    if m >= 10 && n >= 10 {
      assert a[..|a| - 1] == Decimal(m / 10) && b[..|b| - 1] == Decimal(n / 10);
      DecimalInjective(m / 10, n / 10);
      assert a[|a| - 1] == b[|b| - 1];
    } else {
      DecimalNonempty(m / 10);
      DecimalNonempty(n / 10);
    }
  }

  lemma {:induction false} DecimalNonempty(n: nat)
    ensures Decimal(n) != ""
  {
  }
}
