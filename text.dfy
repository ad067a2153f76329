/**
  The three string operations the daemon relies on, as Rust's standard library
  defines them for `str`: `trim`, `split` on a single character, and `join`
  with a one-character separator. Strings are sequences of Unicode scalar
  values, as Rust's `char`s are.
*/
module Text {

  /** The characters with the Unicode White_Space property. */
  const WhiteSpace: set<char> := {
    '\t', '\n', '\U{000B}', '\U{000C}', '\r', ' ', '\U{0085}', '\U{00A0}', '\U{1680}',
    '\U{2000}', '\U{2001}', '\U{2002}', '\U{2003}', '\U{2004}', '\U{2005}', '\U{2006}',
    '\U{2007}', '\U{2008}', '\U{2009}', '\U{200A}',
    '\U{2028}', '\U{2029}', '\U{202F}', '\U{205F}', '\U{3000}'
  }

  /** Rust's `char::is_whitespace`. */
  predicate IsWhitespace(c: char)
  {
    c in WhiteSpace
  }

  predicate AllWhitespace(s: string)
  {
    forall i :: 0 <= i < |s| ==> IsWhitespace(s[i])
  }

  /** Whitespace-only strings are closed under concatenation, both ways. */
  lemma AllWhitespaceConcat(a: string, b: string)
    ensures AllWhitespace(a + b) <==> AllWhitespace(a) && AllWhitespace(b)
  {
    if AllWhitespace(a) && AllWhitespace(b) {
      forall i | 0 <= i < |a + b| ensures IsWhitespace((a + b)[i]) {
        if i >= |a| { assert (a + b)[i] == b[i - |a|]; }
      }
    }
    if AllWhitespace(a + b) {
      forall i | 0 <= i < |b| ensures IsWhitespace(b[i]) {
        assert (a + b)[|a| + i] == b[i];
      }
      forall i | 0 <= i < |a| ensures IsWhitespace(a[i]) {
        assert (a + b)[i] == a[i];
      }
    }
  }

  /** `str::trim_start`: drops the longest all-whitespace prefix. */
  function TrimStart(s: string): string
  {
    if |s| > 0 && IsWhitespace(s[0]) then TrimStart(s[1..]) else s
  }

  /** `str::trim_end`: drops the longest all-whitespace suffix. */
  function TrimEnd(s: string): string
  {
    if |s| > 0 && IsWhitespace(s[|s| - 1]) then TrimEnd(s[..|s| - 1]) else s
  }

  /** TrimStart removes whitespace only, and stops at the first other character. */
  lemma {:induction false} TrimStartSplit(s: string) returns (lead: string)
    ensures s == lead + TrimStart(s) && AllWhitespace(lead)
    ensures TrimStart(s) == [] || !IsWhitespace(TrimStart(s)[0])
  {
    if |s| > 0 && IsWhitespace(s[0]) {
      var rest := TrimStartSplit(s[1..]);
      lead := [s[0]] + rest;
      assert s == [s[0]] + s[1..];
      AllWhitespaceConcat([s[0]], rest);
    } else {
      lead := [];
    }
  }

  /** TrimEnd removes whitespace only, and stops at the last other character. */
  lemma {:induction false} TrimEndSplit(s: string) returns (trail: string)
    ensures s == TrimEnd(s) + trail && AllWhitespace(trail)
    ensures TrimEnd(s) == [] || !IsWhitespace(TrimEnd(s)[|TrimEnd(s)| - 1])
  {
    if |s| > 0 && IsWhitespace(s[|s| - 1]) {
      var last := [s[|s| - 1]];
      var rest := TrimEndSplit(s[..|s| - 1]);
      trail := rest + last;
      assert s == s[..|s| - 1] + last;
      AllWhitespaceConcat(rest, last);
    } else {
      trail := [];
    }
  }

  /** Leading whitespace makes no difference to TrimStart. */
  lemma {:induction false} TrimStartSkips(pre: string, x: string)
    requires AllWhitespace(pre)
    ensures TrimStart(pre + x) == TrimStart(x)
  {
    if pre != [] {
      assert IsWhitespace(pre[0]);
      assert (pre + x)[0] == pre[0];
      assert (pre + x)[1..] == pre[1..] + x;
      TrimStartSkips(pre[1..], x);
    } else {
      assert pre + x == x;
    }
  }

  /** Trailing whitespace makes no difference to TrimEnd. */
  lemma {:induction false} TrimEndSkips(x: string, post: string)
    requires AllWhitespace(post)
    ensures TrimEnd(x + post) == TrimEnd(x)
  {
    if post != [] {
      var s := x + post;
      assert IsWhitespace(post[|post| - 1]);
      assert s[|s| - 1] == post[|post| - 1];
      assert s[..|s| - 1] == x + post[..|post| - 1];
      TrimEndSkips(x, post[..|post| - 1]);
    } else {
      assert x + post == x;
    }
  }

  lemma TrimStartKeeps(x: string)
    requires x == [] || !IsWhitespace(x[0])
    ensures TrimStart(x) == x
  {
  }

  lemma TrimEndKeeps(x: string)
    requires x == [] || !IsWhitespace(x[|x| - 1])
    ensures TrimEnd(x) == x
  {
  }

  /** Trimming splits s into a whitespace prefix, the trimmed text and a whitespace suffix. */
  lemma TrimSplit(s: string) returns (lead: string, trail: string)
    ensures s == lead + TrimEnd(TrimStart(s)) + trail
    ensures AllWhitespace(lead) && AllWhitespace(trail)
    ensures var r := TrimEnd(TrimStart(s));
      r == [] || (!IsWhitespace(r[0]) && !IsWhitespace(r[|r| - 1]))
  {
    var t := TrimStart(s);
    lead := TrimStartSplit(s);
    trail := TrimEndSplit(t);
    var r := TrimEnd(t);
    assert lead + r + trail == lead + (r + trail);
    if r != [] {
      assert r[0] == t[0];
    }
  }

  lemma TrimEnds(s: string)
    ensures var r := TrimEnd(TrimStart(s));
      r == [] || (!IsWhitespace(r[0]) && !IsWhitespace(r[|r| - 1]))
  {
    var _, _ := TrimSplit(s);
  }

  /**
    `str::trim`: what is left once leading and trailing whitespace are gone.
    TrimExact below shows that this ensures and TrimSplit determine the result.
  */
  function Trim(s: string): (r: string)
    ensures r == [] || (!IsWhitespace(r[0]) && !IsWhitespace(r[|r| - 1]))
  {
    TrimEnds(s);
    TrimEnd(TrimStart(s))
  }

  /**
    Trim characterised: whatever whitespace surrounds a string that neither
    starts nor ends with whitespace, Trim removes exactly that whitespace.
  */
  lemma TrimExact(pre: string, core: string, post: string)
    requires AllWhitespace(pre) && AllWhitespace(post)
    requires core == [] || (!IsWhitespace(core[0]) && !IsWhitespace(core[|core| - 1]))
    ensures Trim(pre + core + post) == core
  {
    var x := core + post;
    assert pre + core + post == pre + (core + post);
    TrimStartSkips(pre, x);
    if core == [] {
      assert x == post + [];
      TrimStartSkips(post, []);
    } else {
      assert x[0] == core[0];
      TrimStartKeeps(x);
      TrimEndSkips(core, post);
      TrimEndKeeps(core);
    }
  }

  /** A string trims to nothing exactly when it is all whitespace. */
  lemma TrimEmpty(s: string)
    ensures Trim(s) == [] <==> AllWhitespace(s)
  {
    var lead, trail := TrimSplit(s);
    if Trim(s) == [] {
      assert s == lead + trail;
      AllWhitespaceConcat(lead, trail);
    } else {
      assert s[|lead|] == Trim(s)[0];
    }
  }

  /** Surrounding whitespace never changes what Trim returns. */
  lemma TrimIgnoresSurroundingWhitespace(pre: string, s: string, post: string)
    requires AllWhitespace(pre) && AllWhitespace(post)
    ensures Trim(pre + s + post) == Trim(s)
  {
    var r := Trim(s);
    var lead, trail := TrimSplit(s);
    AllWhitespaceConcat(pre, lead);
    AllWhitespaceConcat(trail, post);
    assert pre + (lead + r + trail) + post == (pre + lead) + r + (trail + post);
    TrimExact(pre + lead, r, trail + post);
  }

  /** Trimming twice is trimming once. */
  lemma TrimIdempotent(s: string)
    ensures Trim(Trim(s)) == Trim(s)
  {
    TrimExact([], Trim(s), []);
    assert [] + Trim(s) + [] == Trim(s);
  }

  /** `[T]::join(sep)` for one-character separators; the empty list joins to "". */
  function Join(parts: seq<string>, sep: char): string
  {
    if |parts| == 0 then []
    else if |parts| == 1 then parts[0]
    else parts[0] + [sep] + Join(parts[1..], sep)
  }

  /**
    `str::split(sep)`: the pieces between separators, in order; an empty
    string gives one empty piece. Split is the inverse of Join: joining the
    pieces gives back s, and no piece contains the separator.
  */
  function Split(s: string, sep: char): (pieces: seq<string>)
    ensures |pieces| >= 1
    ensures |pieces| == 1 <==> sep !in s
    ensures Join(pieces, sep) == s
  {
    if s == [] then [[]]
    else
      var rest := Split(s[1..], sep);
      assert s == [s[0]] + s[1..];
      if s[0] == sep then
        [[]] + rest
      else
        var pieces := [[s[0]] + rest[0]] + rest[1..];
        assert |rest| >= 2 ==> Join(rest, sep) == rest[0] + [sep] + Join(rest[1..], sep);
        assert pieces[1..] == rest[1..];
        pieces
  }

  /** No piece of a split holds the separator. */
  lemma {:induction false} SplitPiecesLackSeparator(s: string, sep: char)
    ensures forall i :: 0 <= i < |Split(s, sep)| ==> sep !in Split(s, sep)[i]
  {
    if s != [] {
      SplitPiecesLackSeparator(s[1..], sep);
      var rest := Split(s[1..], sep);
      if s[0] != sep {
        assert sep !in [s[0]] + rest[0];
      }
    }
  }

  /** A string without the separator is a single piece. */
  lemma SplitWithoutSeparator(s: string, sep: char)
    requires sep !in s
    ensures Split(s, sep) == [s]
  {
  }

  /** A separator after a separator-free piece ends exactly that piece. */
  lemma {:induction false} SplitAfterSeparator(p: string, t: string, sep: char)
    requires sep !in p
    ensures Split(p + [sep] + t, sep) == [p] + Split(t, sep)
  {
    var s := p + [sep] + t;
    if p == [] {
      assert s[1..] == t;
    } else {
      assert s[0] == p[0] && s[1..] == p[1..] + [sep] + t;
      SplitAfterSeparator(p[1..], t, sep);
      assert [p[0]] + p[1..] == p;
    }
  }

  /** Splitting a join of separator-free parts gives the parts back, in order. */
  lemma {:induction false} SplitJoin(parts: seq<string>, sep: char)
    requires |parts| >= 1
    requires forall i :: 0 <= i < |parts| ==> sep !in parts[i]
    ensures Split(Join(parts, sep), sep) == parts
  {
    if |parts| > 1 {
      SplitJoin(parts[1..], sep);
      SplitAfterSeparator(parts[0], Join(parts[1..], sep), sep);
      assert parts == [parts[0]] + parts[1..];
    }
  }

  /** A join starts with its first part and ends with its last part. */
  lemma {:induction false} JoinEnds(parts: seq<string>, sep: char)
    requires |parts| >= 1
    ensures parts[0] <= Join(parts, sep)
    ensures |parts[|parts| - 1]| <= |Join(parts, sep)|
    ensures Join(parts, sep)[|Join(parts, sep)| - |parts[|parts| - 1]|..] == parts[|parts| - 1]
  {
    if |parts| > 1 {
      JoinEnds(parts[1..], sep);
      var rest := Join(parts[1..], sep);
      assert Join(parts, sep) == (parts[0] + [sep]) + rest;
      assert parts[|parts| - 1] == parts[1..][|parts| - 2];
    }
  }
}
