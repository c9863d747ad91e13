// String helpers shared by the models: the parts of Go's `strings` package that the
// modelled code compares text with.
module Text {

  /** Go's unicode.IsSpace. */
  predicate IsSpace(c: char) {
    || c in {'\t', '\n', '\U{0B}', '\U{0C}', '\r', ' ', '\U{85}', '\U{A0}', '\U{1680}'}
    || '\U{2000}' <= c <= '\U{200A}'
    || c in {'\U{2028}', '\U{2029}', '\U{202F}', '\U{205F}', '\U{3000}'}
  }

  function TrimLeft(s: string): (t: string) {
    if s != "" && IsSpace(s[0]) then TrimLeft(s[1..]) else s
  }

  function TrimRight(s: string): (t: string) {
    if s != "" && IsSpace(s[|s| - 1]) then TrimRight(s[..|s| - 1]) else s
  }

  /** strings.TrimSpace. */
  function TrimSpace(s: string): (t: string) {
    TrimRight(TrimLeft(s))
  }

  /** strings.TrimSpace(s) == "". */
  predicate Blank(s: string) {
    TrimSpace(s) == ""
  }

  /** Go's unicode.ToLower, exact wherever the result is an ASCII letter: besides 'A'..'Z' only
      U+0130 and U+212A lower to one. */
  function LowerChar(c: char): (lower: char) {
    if 'A' <= c <= 'Z' then c - 'A' + 'a'
    else if c == '\U{0130}' then 'i'
    else if c == '\U{212A}' then 'k'
    else c
  }

  function ToLower(s: string): (lower: string) {
    seq(|s|, i requires 0 <= i < |s| => LowerChar(s[i]))
  }

  // ---------------------------------------------------------------- what trimming and lowering mean

  /** White space by code point: Unicode's White_Space property. */
  lemma IsSpaceIff(c: char)
    ensures IsSpace(c) <==>
            var n := c as int;
            || 9 <= n <= 13 || n == 32 || n == 133 || n == 160 || n == 5760 || 8192 <= n <= 8202
            || n == 8232 || n == 8233 || n == 8239 || n == 8287 || n == 12288
  {
  }

  ghost predicate AllSpace(s: string) {
    forall i :: 0 <= i < |s| ==> IsSpace(s[i])
  }

  /** Starts and ends with something else than white space, if it is not empty. */
  ghost predicate Bare(s: string) {
    s != "" ==> !IsSpace(s[0]) && !IsSpace(s[|s| - 1])
  }

  lemma {:induction false} TrimLeftDrops(a: string, u: string)
    requires AllSpace(a) && (u != "" ==> !IsSpace(u[0]))
    ensures TrimLeft(a + u) == u
    decreases |a|
  {
    hide IsSpace;
    if a == "" {
      assert a + u == u;
    } else {
      assert (a + u)[1..] == a[1..] + u;
      TrimLeftDrops(a[1..], u);
    }
  }

  lemma {:induction false} TrimRightDrops(u: string, b: string)
    requires AllSpace(b) && (u != "" ==> !IsSpace(u[|u| - 1]))
    ensures TrimRight(u + b) == u
    decreases |b|
  {
    hide IsSpace;
    if b == "" {
      assert u + b == u;
    } else {
      assert (u + b)[..|u + b| - 1] == u + b[..|b| - 1];
      TrimRightDrops(u, b[..|b| - 1]);
    }
  }

  lemma {:induction false} TrimLeftSplits(s: string) returns (a: string)
    ensures s == a + TrimLeft(s) && AllSpace(a)
    ensures TrimLeft(s) != "" ==> !IsSpace(TrimLeft(s)[0])
  {
    hide IsSpace;
    a := "";
    if s != "" && IsSpace(s[0]) {
      var rest := TrimLeftSplits(s[1..]);
      a := [s[0]] + rest;
      assert s == [s[0]] + s[1..];
    }
  }

  lemma {:induction false} TrimRightSplits(s: string) returns (b: string)
    ensures s == TrimRight(s) + b && AllSpace(b)
    ensures TrimRight(s) != "" ==> !IsSpace(TrimRight(s)[|TrimRight(s)| - 1])
  {
    hide IsSpace;
    b := "";
    if s != "" && IsSpace(s[|s| - 1]) {
      var rest := TrimRightSplits(s[..|s| - 1]);
      b := rest + [s[|s| - 1]];
      assert s == s[..|s| - 1] + [s[|s| - 1]];
    }
  }

  /** Trimming takes exactly the white space off both ends. */
  lemma TrimSpaceIff(s: string, t: string)
    ensures TrimSpace(s) == t <==> Bare(t) && exists a, b :: AllSpace(a) && AllSpace(b) && s == a + t + b
  {
    hide IsSpace, TrimLeft, TrimRight;
    if TrimSpace(s) == t {
      var a := TrimLeftSplits(s);
      var b := TrimRightSplits(TrimLeft(s));
      assert AllSpace(a) && AllSpace(b) && s == a + t + b;
      assert t != "" ==> t[0] == TrimLeft(s)[0];
    }
    if a, b :| AllSpace(a) && AllSpace(b) && s == a + t + b && Bare(t) {
      if t == "" {
        assert s == a + b + "" && AllSpace(a + b);
        TrimLeftDrops(a + b, "");
        TrimRightDrops("", "");
        assert "" + "" == "";
      } else {
        assert s == a + (t + b);
        TrimLeftDrops(a, t + b);
        TrimRightDrops(t, b);
      }
    }
  }

  lemma BlankIff(s: string)
    ensures Blank(s) <==> AllSpace(s)
  {
    hide IsSpace, TrimSpace;
    TrimSpaceIff(s, "");
    if AllSpace(s) { assert AllSpace("") && s == s + "" + ""; }
  }

  /** `w` is the lower-case word `t` in any mixture of cases; a dotted capital I and the Kelvin sign count. */
  ghost predicate Spells(w: string, t: string) {
    && |w| == |t|
    && forall i :: 0 <= i < |w| ==>
         || w[i] == t[i]
         || ('A' <= w[i] <= 'Z' && w[i] as int + 32 == t[i] as int)
         || (w[i] == '\U{0130}' && t[i] == 'i')
         || (w[i] == '\U{212A}' && t[i] == 'k')
  }

  ghost predicate Word(t: string) {
    t != "" && forall i :: 0 <= i < |t| ==> 'a' <= t[i] <= 'z'
  }

  /** `s` is that word with white space around it. */
  ghost predicate Says(s: string, t: string) {
    exists a, w, b :: AllSpace(a) && Spells(w, t) && AllSpace(b) && s == a + w + b
  }

  lemma LowerCharIs(c: char, l: char)
    requires 'a' <= l <= 'z'
    ensures LowerChar(c) == l <==>
            || c == l || ('A' <= c <= 'Z' && c as int + 32 == l as int)
            || (c == '\U{0130}' && l == 'i') || (c == '\U{212A}' && l == 'k')
  {
  }

  lemma LowerKeepsSpace(c: char)
    ensures IsSpace(LowerChar(c)) <==> IsSpace(c)
  {
  }

  lemma LowerIs(w: string, t: string)
    requires Word(t)
    ensures ToLower(w) == t <==> Spells(w, t)
  {
    if |w| == |t| {
      forall i | 0 <= i < |w|
        ensures ToLower(w)[i] == t[i] <==>
                || w[i] == t[i] || ('A' <= w[i] <= 'Z' && w[i] as int + 32 == t[i] as int)
                || (w[i] == '\U{0130}' && t[i] == 'i') || (w[i] == '\U{212A}' && t[i] == 'k')
      {
        LowerCharIs(w[i], t[i]);
      }
    }
  }

  lemma LowerBare(w: string)
    ensures Bare(ToLower(w)) <==> Bare(w)
    ensures AllSpace(ToLower(w)) <==> AllSpace(w)
  {
    hide IsSpace;
    forall i | 0 <= i < |w| ensures IsSpace(ToLower(w)[i]) <==> IsSpace(w[i]) {
      LowerKeepsSpace(w[i]);
    }
  }

  lemma WordBare(t: string)
    requires Word(t)
    ensures Bare(t)
  {
  }

  lemma LowerTrimIff(s: string, t: string)
    requires Word(t)
    ensures ToLower(TrimSpace(s)) == t <==> Says(s, t)
  {
    hide IsSpace, TrimSpace, Spells, ToLower;
    WordBare(t);
    if ToLower(TrimSpace(s)) == t {
      TrimSpaceIff(s, TrimSpace(s));
      LowerIs(TrimSpace(s), t);
    }
    if Says(s, t) {
      var a, w, b :| AllSpace(a) && Spells(w, t) && AllSpace(b) && s == a + w + b;
      LowerIs(w, t);
      LowerBare(w);
      TrimSpaceIff(s, w);
    }
  }

  lemma LowerAppend(a: string, b: string)
    ensures ToLower(a + b) == ToLower(a) + ToLower(b)
  {
  }

  lemma TrimLowerIff(s: string, t: string)
    requires Word(t)
    ensures TrimSpace(ToLower(s)) == t <==> Says(s, t)
  {
    WordBare(t);
    assert |ToLower(s)| == |s|;
    if TrimSpace(ToLower(s)) == t {
      hide IsSpace, TrimSpace, Spells;
      TrimSpaceIff(ToLower(s), t);
      var a, b :| AllSpace(a) && AllSpace(b) && ToLower(s) == a + t + b;
      var i, j := |a|, |a| + |t|;
      var x, w, y := s[..i], s[i..j], s[j..];
      assert s == x + w + y;
      assert ToLower(x) == a && ToLower(w) == t && ToLower(y) == b by {
        LowerAppend(x + w, y);
        LowerAppend(x, w);
        assert |ToLower(x)| == i && |ToLower(w)| == |t|;
        assert ToLower(x) == ToLower(s)[..i] && ToLower(w) == ToLower(s)[i..j] && ToLower(y) == ToLower(s)[j..];
      }
      LowerIs(w, t);
      LowerBare(x);
      LowerBare(y);
      assert AllSpace(x) && Spells(w, t) && AllSpace(y) && s == x + w + y;
    }
    if Says(s, t) {
      hide IsSpace, TrimSpace, Spells, ToLower;
      var a, w, b :| AllSpace(a) && Spells(w, t) && AllSpace(b) && s == a + w + b;
      LowerIs(w, t);
      LowerBare(a);
      LowerBare(b);
      LowerAppend(a + w, b);
      LowerAppend(a, w);
      TrimSpaceIff(ToLower(s), t);
    }
  }

  lemma TrimLowerBlankIff(s: string)
    ensures TrimSpace(ToLower(s)) == "" <==> AllSpace(s)
  {
    hide IsSpace, TrimSpace, ToLower;
    LowerBare(s);
    BlankIff(ToLower(s));
  }
}
