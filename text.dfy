/**
 * String helpers shared by the Go back end and the JavaScript front end:
 * splitting on a separator (Go's strings.Split, JavaScript's String.split),
 * joining with a separator (strings.Join, Array.join), prefixes
 * (strings.HasPrefix) and substring search (String.includes).
 */
module Text {
  import opened Wrappers

  /** The pieces of `s` between occurrences of `sep`; never empty. */
  function SplitOn(s: string, sep: char): (r: seq<string>)
    ensures |r| >= 1
    ensures forall i :: 0 <= i < |r| ==> sep !in r[i]
    decreases |s|
  {
    if s == [] then [""]
    else
      var rest := SplitOn(s[1..], sep);
      if s[0] == sep then [""] + rest
      else [[s[0]] + rest[0]] + rest[1..]
  }

  /** The pieces joined with `sep` between consecutive ones. */
  function JoinWith(parts: seq<string>, sep: char): string
  {
    if parts == [] then ""
    else if |parts| == 1 then parts[0]
    else parts[0] + [sep] + JoinWith(parts[1..], sep)
  }

  /** Every piece is free of the separator. */
  predicate NoSep(parts: seq<string>, sep: char)
  {
    forall i :: 0 <= i < |parts| ==> sep !in parts[i]
  }

  lemma {:induction false} SplitWithoutSep(s: string, sep: char)
    requires sep !in s
    ensures SplitOn(s, sep) == [s]
    decreases |s|
  {
    if s != [] {
      SplitWithoutSep(s[1..], sep);
      assert [s[0]] + s[1..] == s;
    }
  }

  /** One step of splitting: a leading character either closes a piece or starts the first one. */
  lemma SplitCons(c: char, t: string, sep: char)
    ensures SplitOn([c] + t, sep) ==
      if c == sep then [""] + SplitOn(t, sep) else [[c] + SplitOn(t, sep)[0]] + SplitOn(t, sep)[1..]
  {
    assert ([c] + t)[1..] == t;
  }

  /** Prepending to the first piece commutes with appending more pieces. */
  lemma ExtendFirst(c: char, ra: seq<string>, rb: seq<string>)
    requires |ra| >= 1
    ensures [[c] + (ra + rb)[0]] + (ra + rb)[1..] == ([[c] + ra[0]] + ra[1..]) + rb
  {
    assert (ra + rb)[1..] == ra[1..] + rb;
  }

  /** Splitting distributes over a separator placed between two strings. */
  lemma {:induction false} SplitConcat(a: string, b: string, sep: char)
    ensures SplitOn(a + [sep] + b, sep) == SplitOn(a, sep) + SplitOn(b, sep)
    decreases |a|
  {
    if a == [] {
      assert a + [sep] + b == [sep] + b;
      SplitCons(sep, b, sep);
    } else {
      var c, t := a[0], a[1..];
      assert a + [sep] + b == [c] + (t + [sep] + b);
      assert a == [c] + t;
      SplitConcat(t, b, sep);
      SplitCons(c, t + [sep] + b, sep);
      SplitCons(c, t, sep);
      if c != sep {
        ExtendFirst(c, SplitOn(t, sep), SplitOn(b, sep));
      }
    }
  }

  /** Splitting undoes joining when no piece holds the separator. */
  lemma {:induction false} SplitJoin(parts: seq<string>, sep: char)
    requires |parts| >= 1 && NoSep(parts, sep)
    ensures SplitOn(JoinWith(parts, sep), sep) == parts
    decreases |parts|
  {
    if |parts| == 1 {
      SplitWithoutSep(parts[0], sep);
    } else {
      SplitWithoutSep(parts[0], sep);
      SplitJoin(parts[1..], sep);
      SplitConcat(parts[0], JoinWith(parts[1..], sep), sep);
      assert [parts[0]] + parts[1..] == parts;
    }
  }

  /** `p` is a prefix of `s` (Go's strings.HasPrefix). */
  predicate IsPrefix(p: string, s: string)
  {
    |p| <= |s| && s[..|p|] == p
  }

  /** `needle` occurs somewhere in `hay` (JavaScript's String.prototype.includes). */
  predicate Contains(hay: string, needle: string)
    decreases |hay|
  {
    IsPrefix(needle, hay) || (hay != [] && Contains(hay[1..], needle))
  }

  lemma FirstPiecePrefix(parts: seq<string>, sep: char)
    requires |parts| >= 1
    ensures IsPrefix(parts[0], JoinWith(parts, sep))
  {
  }

  /** Two separated strings compare piecewise when the heads hold no separator. */
  lemma PrefixCons(a: string, b: string, c: string, d: string, sep: char)
    requires sep !in a && sep !in c
    ensures IsPrefix(a + [sep] + b, c + [sep] + d) <==> a == c && IsPrefix(b, d)
  {
    var l := a + [sep] + b;
    var r := c + [sep] + d;
    if |a| < |c| {
      assert l[|a|] != r[|a|];
    } else if |a| > |c| {
      if |l| <= |r| {
        assert l[|c|] != r[|c|];
      }
    } else {
      if IsPrefix(l, r) {
        assert a == l[..|a|] == r[..|a|] == c;
        assert d[..|b|] == r[|c| + 1..][..|b|] == l[|a| + 1..] == b;
      }
      if a == c && IsPrefix(b, d) {
        assert r[..|l|] == a + [sep] + d[..|b|];
      }
    }
  }

  /** A piece free of the separator is a prefix of a joined string exactly when it
      is a prefix of the first piece. */
  lemma SinglePrefix(x: string, parts: seq<string>, sep: char)
    requires |parts| >= 1 && sep !in x
    ensures IsPrefix(x, JoinWith(parts, sep)) <==> IsPrefix(x, parts[0])
  {
    var j := JoinWith(parts, sep);
    FirstPiecePrefix(parts, sep);
    if |x| > |parts[0]| {
      if |parts| > 1 && |x| <= |j| {
        assert x[|parts[0]|] != j[|parts[0]|];
      }
    } else if IsPrefix(x, j) {
      assert parts[0][..|x|] == j[..|x|];
    }
  }

  /**
   * Comparing joined strings by raw prefix: all pieces but the last must agree,
   * and the last piece of `xs` need only be a prefix of the matching piece of `ys`.
   */
  lemma {:induction false} PrefixOfJoin(xs: seq<string>, ys: seq<string>, sep: char)
    requires |xs| >= 1 && |ys| >= 1 && NoSep(xs, sep) && NoSep(ys, sep)
    ensures IsPrefix(JoinWith(xs, sep), JoinWith(ys, sep)) <==>
      |xs| <= |ys| && xs[..|xs| - 1] == ys[..|xs| - 1] && IsPrefix(xs[|xs| - 1], ys[|xs| - 1])
    decreases |xs|
  {
    if |xs| == 1 {
      SinglePrefix(xs[0], ys, sep);
    } else if |ys| == 1 {
      var jx := JoinWith(xs, sep);
      if |jx| <= |ys[0]| {
        assert jx[|xs[0]|] != ys[0][|xs[0]|];
      }
    } else {
      PrefixCons(xs[0], JoinWith(xs[1..], sep), ys[0], JoinWith(ys[1..], sep), sep);
      PrefixOfJoin(xs[1..], ys[1..], sep);
      var n := |xs| - 1;
      if xs[0] == ys[0] {
        assert xs[..n] == [xs[0]] + xs[1..][..n - 1];
        if n <= |ys[1..]| {
          assert ys[..n] == [ys[0]] + ys[1..][..n - 1];
        }
      } else {
        assert xs[..n][0] != ys[..Min(n, |ys|)][0];
      }
    }
  }

  function LowerChar(c: char): char
  {
    if 'A' <= c <= 'Z' then (c as int + 32) as char else c
  }

  /** String.prototype.toLowerCase on the ASCII letters. */
  function ToLower(s: string): (r: string)
    ensures |r| == |s|
    ensures forall i :: 0 <= i < |s| ==> r[i] == LowerChar(s[i])
    ensures forall i :: 0 <= i < |r| ==> !('A' <= r[i] <= 'Z')
  {
    seq(|s|, i requires 0 <= i < |s| => LowerChar(s[i]))
  }
}
