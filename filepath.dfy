/**
 * The lexical part of Go's path/filepath on Unix: Clean, Join, Abs (against a
 * fixed working directory), Base and Rel from ".". Paths are strings; an
 * element is a piece between two '/' separators.
 *
 * Clean scans the elements left to right keeping a Stack: the number of
 * leading ".." elements that cannot be cancelled (only in a relative path)
 * followed by ordinary names. "" and "." are dropped, ".." removes the last
 * name, or is dropped at the root of a rooted path, or is kept as a leading
 * ".." of a relative one.
 */
module FilePath {
  import opened Wrappers
  import opened Text

  /** An element that survives cleaning as an ordinary name. */
  predicate IsName(e: string)
  {
    e != "" && e != "." && e != ".." && '/' !in e
  }

  predicate AllNames(ns: seq<string>)
  {
    forall i :: 0 <= i < |ns| ==> IsName(ns[i])
  }

  datatype Stack = Stack(ups: nat, names: seq<string>)

  /** What Clean's scan can reach: names only, and no ".." in a rooted path. */
  predicate WellFormed(st: Stack, rooted: bool)
  {
    AllNames(st.names) && (rooted ==> st.ups == 0)
  }

  function Step(st: Stack, e: string, rooted: bool): Stack
  {
    if e == "" || e == "." then st
    else if e == ".." then
      if st.names != [] then Stack(st.ups, st.names[..|st.names| - 1])
      else if rooted then st
      else Stack(st.ups + 1, st.names)
    else Stack(st.ups, st.names + [e])
  }

  function Resolve(st: Stack, elems: seq<string>, rooted: bool): Stack
    decreases |elems|
  {
    if elems == [] then st else Resolve(Step(st, elems[0], rooted), elems[1..], rooted)
  }

  function Ups(k: nat): (r: seq<string>)
    ensures |r| == k && forall i :: 0 <= i < k ==> r[i] == ".."
  {
    seq(k, _ => "..")
  }

  /** The string Clean produces for a final stack. */
  function Render(st: Stack, rooted: bool): string
  {
    var elems := Ups(st.ups) + st.names;
    if rooted then (if elems == [] then "/" else "/" + JoinWith(elems, '/'))
    else (if elems == [] then "." else JoinWith(elems, '/'))
  }

  predicate IsRooted(p: string)
  {
    p != [] && p[0] == '/'
  }

  /** The stack Clean reaches on a non-empty path. */
  function CleanStack(p: string): Stack
  {
    Resolve(Stack(0, []), SplitOn(p, '/'), IsRooted(p))
  }

  /** filepath.Clean: the shortest lexically equivalent path. */
  function Clean(p: string): string
  {
    if p == "" then "." else Render(CleanStack(p), IsRooted(p))
  }

  /** filepath.Join of two elements: an empty first element is skipped, and the
      result is cleaned; two empty elements give "". */
  function Join(a: string, b: string): string
  {
    if a != "" then Clean(a + "/" + b)
    else if b != "" then Clean(b)
    else ""
  }

  /** The working directory as a string; `cwd` holds its names. */
  function CwdPath(cwd: seq<string>): string
  {
    Render(Stack(0, cwd), true)
  }

  /** filepath.Abs with a fixed working directory: a rooted path is cleaned,
      any other is joined onto the working directory. */
  function Abs(cwd: seq<string>, p: string): string
  {
    if IsRooted(p) then Clean(p) else Join(CwdPath(cwd), p)
  }

  function TrimTrailingSlashes(p: string): (r: string)
    ensures r == [] || r[|r| - 1] != '/'
  {
    if p != [] && p[|p| - 1] == '/' then TrimTrailingSlashes(p[..|p| - 1]) else p
  }

  lemma {:induction false} LastPieceNonEmpty(t: string, sep: char)
    requires t != [] && t[|t| - 1] != sep
    ensures SplitOn(t, sep)[|SplitOn(t, sep)| - 1] != ""
    decreases |t|
  {
    if |t| > 1 {
      LastPieceNonEmpty(t[1..], sep);
    }
  }

  /** filepath.Base: the last element after trailing separators are removed;
      "." for the empty path and "/" for a path of separators only. */
  function Base(p: string): (r: string)
    ensures r != ""
    ensures r == "/" || '/' !in r
  {
    if p == "" then "."
    else
      var t := TrimTrailingSlashes(p);
      if t == "" then "/"
      else
        var pieces := SplitOn(t, '/');
        LastPieceNonEmpty(t, '/');
        pieces[|pieces| - 1]
  }

  /** filepath.Rel(".", t): fails exactly when the cleaned target is rooted. */
  function RelFromDot(t: string): Option<string>
  {
    var c := Clean(t);
    if IsRooted(c) then None else Some(c)
  }

  // ---------------------------------------------------------------------------
  // Properties of the scan

  lemma {:induction false} ResolveAppend(st: Stack, a: seq<string>, b: seq<string>, rooted: bool)
    ensures Resolve(st, a + b, rooted) == Resolve(Resolve(st, a, rooted), b, rooted)
    decreases |a|
  {
    if a != [] {
      assert (a + b)[1..] == a[1..] + b;
      ResolveAppend(Step(st, a[0], rooted), a[1..], b, rooted);
    } else {
      assert a + b == b;
    }
  }

  /** The scan only ever produces well-formed stacks. */
  lemma {:induction false} ResolveWellFormed(st: Stack, elems: seq<string>, rooted: bool)
    requires WellFormed(st, rooted) && NoSep(elems, '/')
    ensures WellFormed(Resolve(st, elems, rooted), rooted)
    decreases |elems|
  {
    if elems != [] {
      assert '/' !in elems[0];
      ResolveWellFormed(Step(st, elems[0], rooted), elems[1..], rooted);
    }
  }

  lemma {:induction false} ResolveNames(st: Stack, ns: seq<string>, rooted: bool)
    requires AllNames(ns)
    ensures Resolve(st, ns, rooted) == Stack(st.ups, st.names + ns)
    decreases |ns|
  {
    if ns != [] {
      ResolveNames(Step(st, ns[0], rooted), ns[1..], rooted);
      assert st.names + [ns[0]] + ns[1..] == st.names + ns;
    } else {
      assert st.names + ns == st.names;
    }
  }

  lemma {:induction false} ResolveUps(u: nat, k: nat)
    ensures Resolve(Stack(u, []), Ups(k), false) == Stack(u + k, [])
    decreases k
  {
    if k > 0 {
      assert Ups(k)[1..] == Ups(k - 1);
      ResolveUps(u + 1, k - 1);
    }
  }

  /** Elements free of ".." never cancel anything: the stack only grows. */
  lemma {:induction false} ResolveNoUps(st: Stack, elems: seq<string>, rooted: bool)
    requires forall i :: 0 <= i < |elems| ==> elems[i] != ".."
    ensures Resolve(st, elems, rooted).ups == st.ups
    ensures st.names <= Resolve(st, elems, rooted).names
    decreases |elems|
  {
    if elems != [] {
      ResolveNoUps(Step(st, elems[0], rooted), elems[1..], rooted);
    }
  }

  lemma FirstChar(parts: seq<string>)
    requires |parts| >= 1 && parts[0] != ""
    ensures JoinWith(parts, '/')[0] == parts[0][0]
  {
    FirstPiecePrefix(parts, '/');
  }

  /** Splitting a rendered stack gives back its elements, up to elements the scan ignores. */
  lemma RenderedElements(st: Stack, rooted: bool, st0: Stack, r: bool)
    requires WellFormed(st, rooted)
    ensures Resolve(st0, SplitOn(Render(st, rooted), '/'), r) == Resolve(st0, Ups(st.ups) + st.names, r)
  {
    var elems := Ups(st.ups) + st.names;
    assert NoSep(elems, '/') by {
      forall i | 0 <= i < |elems| ensures '/' !in elems[i] {
        if i >= st.ups { assert elems[i] == st.names[i - st.ups]; }
      }
    }
    if elems == [] {
      if rooted {
        assert "/" == "" + ['/'] + "";
        SplitConcat("", "", '/');
      }
    } else {
      SplitJoin(elems, '/');
      if rooted {
        assert "/" + JoinWith(elems, '/') == "" + ['/'] + JoinWith(elems, '/');
        SplitConcat("", JoinWith(elems, '/'), '/');
        ResolveAppend(st0, [""], elems, r);
      }
    }
  }

  lemma RenderRooted(st: Stack, rooted: bool)
    requires WellFormed(st, rooted)
    ensures Render(st, rooted) != "" && IsRooted(Render(st, rooted)) == rooted
  {
    var elems := Ups(st.ups) + st.names;
    if !rooted && elems != [] {
      if st.ups == 0 { assert elems[0] == st.names[0]; }
      FirstChar(elems);
    }
  }

  /** Re-scanning the elements of a well-formed stack rebuilds it. */
  lemma Rescan(st: Stack, rooted: bool)
    requires WellFormed(st, rooted)
    ensures Resolve(Stack(0, []), Ups(st.ups) + st.names, rooted) == st
  {
    ResolveAppend(Stack(0, []), Ups(st.ups), st.names, rooted);
    if !rooted {
      ResolveUps(0, st.ups);
    }
    ResolveNames(Stack(st.ups, []), st.names, rooted);
  }

  /** Cleaning is idempotent: a cleaned path is already clean. */
  lemma CleanIdempotent(p: string)
    ensures Clean(Clean(p)) == Clean(p)
  {
    if p != "" {
      var rooted := IsRooted(p);
      var st := CleanStack(p);
      ResolveWellFormed(Stack(0, []), SplitOn(p, '/'), rooted);
      RenderRooted(st, rooted);
      RenderedElements(st, rooted, Stack(0, []), rooted);
      Rescan(st, rooted);
      var c := Render(st, rooted);
      assert Clean(p) == c;
      assert CleanStack(c) == st;
    } else {
      SplitWithoutSep(".", '/');
    }
  }

  /** Cleaning keeps a path rooted or relative. */
  lemma CleanKeepsRooted(p: string)
    ensures IsRooted(Clean(p)) == IsRooted(p)
  {
    if p != "" {
      ResolveWellFormed(Stack(0, []), SplitOn(p, '/'), IsRooted(p));
      RenderRooted(CleanStack(p), IsRooted(p));
    }
  }

  // ---------------------------------------------------------------------------
  // Resolving a relative path against the working directory

  /** A relative stack placed under the working directory: its leading ".."
      elements climb out of `cwd`, but never above the root. */
  function Climb(cwd: seq<string>, st: Stack): Stack
  {
    Stack(0, cwd[..|cwd| - Min(st.ups, |cwd|)] + st.names)
  }

  lemma {:induction false} ResolveUnder(cwd: seq<string>, st: Stack, elems: seq<string>)
    ensures Resolve(Climb(cwd, st), elems, true) == Climb(cwd, Resolve(st, elems, false))
    decreases |elems|
  {
    if elems != [] {
      var e := elems[0];
      var k := |cwd| - Min(st.ups, |cwd|);
      if e == ".." {
        if st.names != [] {
          assert (cwd[..k] + st.names)[..|cwd[..k] + st.names| - 1]
            == cwd[..k] + st.names[..|st.names| - 1];
        } else if st.ups < |cwd| {
          assert (cwd[..k] + st.names)[..k - 1] == cwd[..|cwd| - Min(st.ups + 1, |cwd|)];
        }
      } else if e != "" && e != "." {
        assert cwd[..k] + st.names + [e] == cwd[..k] + (st.names + [e]);
      }
      assert Step(Climb(cwd, st), e, true) == Climb(cwd, Step(st, e, false));
      ResolveUnder(cwd, Step(st, e, false), elems[1..]);
    }
  }

  /** Abs of a relative path: the cwd's names, minus what its leading ".."
      elements climb, followed by its remaining names. */
  lemma AbsRelative(cwd: seq<string>, p: string)
    requires AllNames(cwd) && !IsRooted(p)
    ensures Abs(cwd, p) == Render(Climb(cwd, Resolve(Stack(0, []), SplitOn(p, '/'), false)), true)
  {
    var w := CwdPath(cwd);
    RenderRooted(Stack(0, cwd), true);
    var s := w + "/" + p;
    assert s[0] == '/';
    SplitConcat(w, p, '/');
    ResolveAppend(Stack(0, []), SplitOn(w, '/'), SplitOn(p, '/'), true);
    RenderedElements(Stack(0, cwd), true, Stack(0, []), true);
    assert Ups(0) + cwd == cwd;
    ResolveNames(Stack(0, []), cwd, true);
    assert cwd[..|cwd|] == cwd;
    ResolveUnder(cwd, Stack(0, []), SplitOn(p, '/'));
    assert Climb(cwd, Stack(0, [])) == Stack(0, cwd);
    assert Abs(cwd, p) == Clean(s);
    assert CleanStack(s) == Resolve(Stack(0, cwd), SplitOn(p, '/'), true);
  }

  /** Abs of an already cleaned relative path. */
  lemma AbsOfClean(cwd: seq<string>, q: string)
    requires AllNames(cwd) && !IsRooted(q)
    ensures Abs(cwd, Clean(q)) == Render(Climb(cwd, Resolve(Stack(0, []), SplitOn(q, '/'), false)), true)
  {
    CleanKeepsRooted(q);
    AbsRelative(cwd, Clean(q));
    if q != "" {
      var st := CleanStack(q);
      ResolveWellFormed(Stack(0, []), SplitOn(q, '/'), false);
      RenderedElements(st, false, Stack(0, []), false);
      Rescan(st, false);
    }
  }

  // ---------------------------------------------------------------------------
  // Base

  /** Base picks the last name of a path, whatever directories precede it. */
  lemma BaseOfName(dir: string, name: string)
    requires name != "" && '/' !in name
    ensures Base(name) == name
    ensures Base(dir + "/" + name) == name
    ensures Base(name + "/") == name
  {
    SplitWithoutSep(name, '/');
    SplitConcat(dir, name, '/');
    assert (name + "/")[..|name|] == name;
  }
}
