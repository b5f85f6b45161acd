/**
 * The few Python string operations the client's post-processing relies on:
 * `strip` (with and without a character set), `split` on one character,
 * `join`, `startswith`, a single `replace(old, "", 1)` and `str` of an int.
 */
module Text {
  /** The characters `str.isspace` accepts, which plain `strip()` removes. */
  const Whitespace: set<char> := {
    ' ', '\t', '\n', '\r', '\U{000B}', '\U{000C}', '\U{001C}', '\U{001D}', '\U{001E}', '\U{001F}',
    '\U{0085}', '\U{00A0}', '\U{1680}', '\U{2000}', '\U{2001}', '\U{2002}', '\U{2003}', '\U{2004}',
    '\U{2005}', '\U{2006}', '\U{2007}', '\U{2008}', '\U{2009}', '\U{200A}', '\U{2028}', '\U{2029}',
    '\U{202F}', '\U{205F}', '\U{3000}'
  }

  /** `s.lstrip(cs)`: the longest suffix of `s` that does not start with a character of `cs`. */
  function TrimStart(s: string, cs: set<char>): (r: string)
    ensures |r| <= |s| && r == s[|s| - |r|..]
    ensures r == [] || r[0] !in cs
    ensures forall i :: 0 <= i < |s| - |r| ==> s[i] in cs
  {
    if s != [] && s[0] in cs then
      var r := TrimStart(s[1..], cs);
      assert s[1..][|s| - 1 - |r|..] == s[|s| - |r|..];
      assert forall i :: 1 <= i < |s| - |r| ==> s[i] == s[1..][i - 1];
      r
    else s
  }

  /** `s.rstrip(cs)`: the longest prefix of `s` that does not end with a character of `cs`. */
  function TrimEnd(s: string, cs: set<char>): (r: string)
    ensures |r| <= |s| && r == s[..|r|]
    ensures r == [] || r[|r| - 1] !in cs
    ensures forall i :: |r| <= i < |s| ==> s[i] in cs
  {
    if s != [] && s[|s| - 1] in cs then
      var r := TrimEnd(s[..|s| - 1], cs);
      assert s[..|s| - 1][..|r|] == s[..|r|];
      r
    else s
  }

  /** `s.strip(cs)`. */
  function StripSet(s: string, cs: set<char>): string
  {
    TrimEnd(TrimStart(s, cs), cs)
  }

  /** `s.strip()`. */
  function Strip(s: string): string
  {
    StripSet(s, Whitespace)
  }

  /** `s` has no character of `cs` at either end. */
  predicate Bare(s: string, cs: set<char>)
  {
    s == [] || (s[0] !in cs && s[|s| - 1] !in cs)
  }

  /** A stripped string has no character of `cs` at either end. */
  lemma StripSetEnds(s: string, cs: set<char>)
    ensures Bare(StripSet(s, cs), cs)
  {
    var t := TrimStart(s, cs);
    var r := TrimEnd(t, cs);
    if r != [] {
      assert r[0] == t[0];
    }
  }

  /** Stripping twice is stripping once. */
  lemma StripSetIdempotent(s: string, cs: set<char>)
    ensures StripSet(StripSet(s, cs), cs) == StripSet(s, cs)
  {
    StripSetEnds(s, cs);
  }

  /** A string whose ends are not in `cs` is left alone. */
  lemma StripSetFixed(s: string, cs: set<char>)
    requires Bare(s, cs)
    ensures StripSet(s, cs) == s
  {
  }

  /** Stripping removes characters and adds none. */
  lemma StripSetKeepsOut(s: string, cs: set<char>, c: char)
    requires c !in s
    ensures c !in StripSet(s, cs)
  {
    var t := TrimStart(s, cs);
    assert c !in t by {
      assert t == s[|s| - |t|..];
    }
    assert TrimEnd(t, cs) == t[..|TrimEnd(t, cs)|];
  }

  /**
   * Stripping a string that ends with a piece `f` whose ends are outside
   * `cs` keeps all of `f`: whatever is cut comes from before it.
   */
  lemma {:induction false} StripSetKeepsTail(x: string, f: string, cs: set<char>)
    requires f != [] && f[0] !in cs && f[|f| - 1] !in cs
    ensures var r := StripSet(x + f, cs); |r| >= |f| && r[|r| - |f|..] == f
    decreases |x|
  {
    if x != [] && x[0] in cs {
      assert (x + f)[1..] == x[1..] + f;
      StripSetKeepsTail(x[1..], f, cs);
    } else {
      assert TrimStart(x + f, cs) == x + f;
      assert (x + f)[|x + f| - 1] == f[|f| - 1];
    }
  }

  /** `[p.strip() for p in lines if p.strip()]`. */
  function NonBlank(lines: seq<string>): (r: seq<string>)
    ensures |r| <= |lines|
    ensures forall i :: 0 <= i < |r| ==> r[i] != ""
  {
    if lines == [] then []
    else
      var rest := NonBlank(lines[1..]);
      var p := Strip(lines[0]);
      if p != "" then [p] + rest else rest
  }

  /** Every cleaned line is already stripped: no whitespace at either end. */
  lemma {:induction false} NonBlankStripped(lines: seq<string>)
    ensures var r := NonBlank(lines); forall i :: 0 <= i < |r| ==> Bare(r[i], Whitespace)
  {
    if lines != [] {
      var rest := NonBlank(lines[1..]);
      assert forall i :: 0 <= i < |rest| ==> Bare(rest[i], Whitespace) by {
        NonBlankStripped(lines[1..]);
        assert forall i :: 0 <= i < |NonBlank(lines[1..])| ==> Bare(NonBlank(lines[1..])[i], Whitespace);
      }
      var p := Strip(lines[0]);
      assert Bare(p, Whitespace) by {
        StripSetEnds(lines[0], Whitespace);
      }
      assert NonBlank(lines) == if p != "" then [p] + rest else rest;
    }
  }

  /** Cleaning the lines again changes nothing. */
  lemma {:induction false} NonBlankIdempotent(lines: seq<string>)
    ensures NonBlank(NonBlank(lines)) == NonBlank(lines)
  {
    if lines != [] {
      NonBlankIdempotent(lines[1..]);
      var r := NonBlank(lines);
      if Strip(lines[0]) != "" {
        assert r[1..] == NonBlank(lines[1..]);
        assert r[0] == Strip(lines[0]);
        StripSetIdempotent(lines[0], Whitespace);
      }
    }
  }

  /** A character that no line holds is held by no cleaned line either. */
  lemma {:induction false} NonBlankKeepsOut(lines: seq<string>, c: char)
    requires forall i :: 0 <= i < |lines| ==> c !in lines[i]
    ensures var r := NonBlank(lines); forall i :: 0 <= i < |r| ==> c !in r[i]
  {
    if lines != [] {
      var rest := NonBlank(lines[1..]);
      assert forall i :: 0 <= i < |rest| ==> c !in rest[i] by {
        NonBlankKeepsOut(lines[1..], c);
        assert forall i :: 0 <= i < |NonBlank(lines[1..])| ==> c !in NonBlank(lines[1..])[i];
      }
      var p := Strip(lines[0]);
      assert c !in p by {
        StripSetKeepsOut(lines[0], Whitespace, c);
      }
      assert NonBlank(lines) == if p != "" then [p] + rest else rest;
    }
  }

  /** `sep.join(parts)`. */
  function Join(parts: seq<string>, sep: string): string
  {
    if |parts| == 0 then ""
    else if |parts| == 1 then parts[0]
    else parts[0] + sep + Join(parts[1..], sep)
  }

  /** Joining one more piece appends the separator and the piece. */
  lemma {:induction false} JoinAppend(parts: seq<string>, x: string, sep: string)
    requires |parts| >= 1
    ensures Join(parts + [x], sep) == Join(parts, sep) + sep + x
  {
    if |parts| > 1 {
      assert (parts + [x])[1..] == parts[1..] + [x];
      JoinAppend(parts[1..], x, sep);
    }
  }

  /** `s.split(c)`: the pieces between the occurrences of `c`, never an empty list. */
  function Split(s: string, c: char): (r: seq<string>)
    ensures |r| >= 1
    ensures forall i :: 0 <= i < |r| ==> c !in r[i]
  {
    if s == [] then [""]
    else
      var rest := Split(s[1..], c);
      if s[0] == c then [""] + rest
      else [[s[0]] + rest[0]] + rest[1..]
  }

  /** Joining the pieces of a split with the separator gives the string back. */
  lemma {:induction false} SplitThenJoin(s: string, c: char)
    ensures Join(Split(s, c), [c]) == s
  {
    if s != [] {
      var rest := Split(s[1..], c);
      SplitThenJoin(s[1..], c);
      if s[0] != c {
        var r := Split(s, c);
        if |rest| == 1 {
          assert r == [[s[0]] + rest[0]];
        } else {
          assert r[1..] == rest[1..];
          assert Join(rest, [c]) == rest[0] + [c] + Join(rest[1..], [c]);
        }
      }
    }
  }

  /** Splitting a string on a character it does not contain gives the string alone. */
  lemma {:induction false} SplitAbsent(s: string, c: char)
    requires c !in s
    ensures Split(s, c) == [s]
  {
    if s != [] {
      assert s[0] != c && c !in s[1..];
      SplitAbsent(s[1..], c);
      assert [s[0]] + s[1..] == s;
    }
  }

  /** Splitting `x + [c] + y`, where `x` holds no `c`, gives `x` followed by the pieces of `y`. */
  lemma {:induction false} SplitAtSeparator(x: string, c: char, y: string)
    requires c !in x
    ensures Split(x + [c] + y, c) == [x] + Split(y, c)
  {
    if x == [] {
      assert x + [c] + y == [c] + y;
      assert ([c] + y)[0] == c && ([c] + y)[1..] == y;
      assert Split([c] + y, c) == [""] + Split(y, c);
    } else {
      var rest := Split(x[1..] + [c] + y, c);
      assert (x + [c] + y)[0] == x[0] && (x + [c] + y)[1..] == x[1..] + [c] + y;
      SplitAtSeparator(x[1..], c, y);
      assert rest[0] == x[1..] && rest[1..] == Split(y, c);
      assert [x[0]] + x[1..] == x;
    }
  }

  /** `s.find(c)`, with `|s|` standing for "not found". */
  function Find(s: string, c: char): (r: nat)
    ensures r <= |s| && c !in s[..r]
    ensures r < |s| ==> s[r] == c
  {
    if s == [] then 0
    else if s[0] == c then 0
    else
      var r := 1 + Find(s[1..], c);
      assert s[..r] == [s[0]] + s[1..][..r - 1];
      r
  }

  /**
   * The first piece of a split is the text before the first separator, and
   * the other pieces are the split of the text after it; there is more than
   * one piece exactly when the separator occurs.
   */
  lemma SplitFirst(s: string, c: char)
    ensures var p := Find(s, c); var r := Split(s, c);
      && r[0] == s[..p]
      && (|r| > 1 <==> p < |s|)
      && (p < |s| ==> r[1..] == Split(s[p + 1..], c))
  {
    var p := Find(s, c);
    if p < |s| {
      SplitFound(s, c, p);
    } else {
      assert s[..p] == s;
      SplitAbsent(s, c);
    }
  }

  /** Splitting at the first occurrence `p` of the separator. */
  lemma SplitFound(s: string, c: char, p: nat)
    requires p < |s| && s[p] == c && c !in s[..p]
    ensures Split(s, c) == [s[..p]] + Split(s[p + 1..], c)
  {
    assert s == s[..p] + [c] + s[p + 1..];
    SplitAtSeparator(s[..p], c, s[p + 1..]);
  }

  /** `s.startswith(t)`. */
  predicate StartsWith(s: string, t: string)
  {
    |t| <= |s| && s[..|t|] == t
  }

  /** `s.endswith(t)`. */
  predicate EndsWith(s: string, t: string)
  {
    |t| <= |s| && s[|s| - |t|..] == t
  }

  /** A concatenation begins with its first piece and ends with its last. */
  lemma ConcatEnds(head: string, mid: string, tail: string)
    requires head != [] && tail != []
    ensures var f := head + mid + tail; f != [] && f[0] == head[0] && f[|f| - 1] == tail[|tail| - 1]
  {
  }

  /** `s.replace(t, "", 1)`: the first occurrence of `t` removed, `s` itself when there is none. */
  function RemoveFirst(s: string, t: string): (r: string)
    ensures StartsWith(s, t) ==> r == s[|t|..]
    ensures |r| == |s| || |r| == |s| - |t|
  {
    if |s| < |t| then s
    else if s[..|t|] == t then s[|t|..]
    else [s[0]] + RemoveFirst(s[1..], t)
  }

  function DigitChar(d: nat): char
    requires d < 10
  {
    "0123456789"[d]
  }

  lemma DigitCharValue(d: nat)
    requires d < 10
    ensures DigitChar(d) as int - '0' as int == d
  {
  }

  /** `str(n)` for a natural number: its decimal digits, most significant first, without leading zeros. */
  function NatToString(n: nat): (r: string)
    ensures |r| >= 1 && (forall i :: 0 <= i < |r| ==> '0' <= r[i] <= '9')
    ensures r[0] == '0' ==> n == 0
  {
    if n < 10 then [DigitChar(n)] else NatToString(n / 10) + [DigitChar(n % 10)]
  }

  /** `str(i)` for any integer. */
  function IntToString(i: int): string
  {
    if i < 0 then "-" + NatToString(-i) else NatToString(i)
  }

  /** The value of a string of decimal digits. */
  function DecimalValue(s: string): nat
    requires forall i :: 0 <= i < |s| ==> '0' <= s[i] <= '9'
  {
    if s == [] then 0 else 10 * DecimalValue(s[..|s| - 1]) + (s[|s| - 1] as int - '0' as int)
  }

  /** Reading the digits of `n` back gives `n`. */
  lemma {:induction false} NatToStringRoundTrip(n: nat)
    ensures DecimalValue(NatToString(n)) == n
  {
    if n >= 10 {
      var s := NatToString(n);
      var d := DigitChar(n % 10);
      NatToStringRoundTrip(n / 10);
      assert s == NatToString(n / 10) + [d];
      assert s[..|s| - 1] == NatToString(n / 10) && s[|s| - 1] == d;
      DigitCharValue(n % 10);
    } else {
      DigitCharValue(n);
      assert NatToString(n)[..0] == [];
    }
  }

  /** Different numbers print differently. */
  lemma NatToStringInjective(m: nat, n: nat)
    requires NatToString(m) == NatToString(n)
    ensures m == n
  {
    NatToStringRoundTrip(m);
    NatToStringRoundTrip(n);
  }
}
