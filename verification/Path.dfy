/** File_MakeAbsoluteName of file.c: making a name absolute and cleaning it in place, specified by a
    stack of components. */
module Path {
  const SEP: char := '/'
  const NUL: char := '\0'

  // ----- the specification

  /** The length of the first component. */
  function FirstSep(s: string): (i: nat)
    ensures i <= |s| && SEP !in s[..i] && (i < |s| ==> s[i] == SEP)
  {
    if s == [] || s[0] == SEP then 0 else 1 + FirstSep(s[1..])
  }

  /** Each component followed by a separator. */
  function Relative(stack: seq<string>): (s: string)
  {
    if stack == [] then [] else Relative(stack[..|stack| - 1]) + stack[|stack| - 1] + [SEP]
  }

  /** A directory and its path, which begins and ends with a separator. */
  function Directory(stack: seq<string>): (s: string)
    ensures s != [] && s[0] == SEP && s[|s| - 1] == SEP
  {
    [SEP] + Relative(stack)
  }

  /** The root has no parent. */
  function Parent(stack: seq<string>): (r: seq<string>)
  {
    if stack == [] then [] else stack[..|stack| - 1]
  }

  function Enter(stack: seq<string>, c: string): (r: seq<string>)
  {
    if c == "." then stack else if c == ".." then Parent(stack) else stack + [c]
  }

  /** A directory named without the separator at its end. */
  function Bare(stack: seq<string>): (s: string)
  {
    if stack == [] then [SEP] else Directory(stack[..|stack| - 1]) + stack[|stack| - 1]
  }

  /** The last component, which has no separator after it. */
  function Finish(stack: seq<string>, c: string): (s: string)
  {
    if c == "." then Bare(stack) else if c == ".." then Bare(Parent(stack)) else Directory(stack) + c
  }

  /** The name reached from a directory by the rest of a path. */
  function Walk(stack: seq<string>, rest: string): (s: string)
    decreases |rest|
  {
    var i := FirstSep(rest);
    if i == |rest| then Finish(stack, rest) else Walk(Enter(stack, rest[..i]), rest[i + 1..])
  }

  function Normalised(path: string): (s: string)
    requires path != [] && path[0] == SEP
  {
    Walk([], path[1..])
  }

  /** The name that is meant: absolute, or reached from the working directory. */
  function Meant(cwd: seq<string>, path: string): (s: string)
  {
    if path != [] && path[0] == SEP then Normalised(path) else Walk(cwd, path)
  }

  /** The longest output while walking: every directory on the way, and the last component. */
  function Peak(stack: seq<string>, rest: string): (n: nat)
    decreases |rest|
  {
    var i, here := FirstSep(rest), |Directory(stack)|;
    if i < |rest| then Most(here, Peak(Enter(stack, rest[..i]), rest[i + 1..]))
    else if rest == "." || rest == ".." then here
    else here + |rest|
  }

  function Most(a: nat, b: nat): (n: nat)
  {
    if a <= b then b else a
  }

  lemma PeakFirst(stack: seq<string>, rest: string, i: nat)
    requires i == FirstSep(rest)
    ensures i < |rest| ==> Peak(stack, rest) == Most(|Directory(stack)|, Peak(Enter(stack, rest[..i]), rest[i + 1..]))
    ensures i == |rest| ==>
              Peak(stack, rest) ==
                  if rest == "." || rest == ".." then |Directory(stack)| else |Directory(stack)| + |rest|
  {
    hide FirstSep, Directory, Enter, Most;
  }

  /** The longest output on the way to the name that is meant. */
  function Height(cwd: seq<string>, path: string): (n: nat)
  {
    if path != [] && path[0] == SEP then Peak([], path[1..]) else Peak(cwd, path)
  }

  lemma {:induction false} RelativeBelow(stack: seq<string>)
    ensures |Directory(Parent(stack))| <= |Directory(stack)|
    ensures forall c :: |Directory(stack + [c])| == |Directory(stack)| + |c| + 1
  {
    forall c
      ensures |Directory(stack + [c])| == |Directory(stack)| + |c| + 1
    {
      assert (stack + [c])[..|stack|] == stack;
    }
  }

  lemma {:induction false} PeakBound(stack: seq<string>, rest: string)
    ensures |Directory(stack)| <= Peak(stack, rest) <= |Directory(stack)| + |rest|
    decreases |rest|
  {
    hide Directory, FirstSep, Peak;
    var i := FirstSep(rest);
    RelativeBelow(stack);
    PeakFirst(stack, rest, i);
    if i < |rest| {
      PeakBound(Enter(stack, rest[..i]), rest[i + 1..]);
    }
  }

  /** An absolute name never needs more room than it has. */
  lemma HeightAbsolute(cwd: seq<string>, path: string)
    requires path != [] && path[0] == SEP
    ensures Height(cwd, path) <= |path|
  {
    PeakBound([], path[1..]);
  }

  /** A name of one component stands behind the working directory; so a buffer of |c| + 1 characters, which
      just holds the name, is too short for it in every working directory. */
  lemma OneComponent(cwd: seq<string>, c: string)
    requires Clean(c) && c != []
    ensures Height(cwd, c) == |Directory(cwd)| + |c| >= |c| + 1
  {
    NoSep(c);
  }

  // ----- what the specification means

  /** A component that stays: not "." or "..", and without separators. */
  predicate Clean(c: string)
  {
    c != "." && c != ".." && SEP !in c
  }

  predicate AllClean(stack: seq<string>)
  {
    forall c <- stack :: Clean(c)
  }

  /** The result is a directory followed by a last component, all of them clean. */
  lemma {:induction false} WalkShape(stack: seq<string>, rest: string) returns (dir: seq<string>, last: string)
    requires AllClean(stack)
    ensures Walk(stack, rest) == Directory(dir) + last && AllClean(dir) && Clean(last)
    decreases |rest|
  {
    var i := FirstSep(rest);
    if i == |rest| {
      assert rest == rest[..i];
      if rest == "." {
        dir, last := BareShape(stack);
      } else if rest == ".." {
        dir, last := BareShape(Parent(stack));
      } else {
        dir, last := stack, rest;
      }
    } else {
      dir, last := WalkShape(Enter(stack, rest[..i]), rest[i + 1..]);
    }
  }

  lemma BareShape(stack: seq<string>) returns (dir: seq<string>, last: string)
    requires AllClean(stack)
    ensures Bare(stack) == Directory(dir) + last && AllClean(dir) && Clean(last)
  {
    if stack == [] {
      dir, last := [], "";
      assert Directory([]) + "" == [SEP];
    } else {
      dir, last := stack[..|stack| - 1], stack[|stack| - 1];
    }
  }

  lemma {:induction false} FirstSepAt(c: string, rest: string)
    requires SEP !in c
    ensures FirstSep(c + [SEP] + rest) == |c|
  {
    var s := c + [SEP] + rest;
    if c != [] {
      assert s[1..] == c[1..] + [SEP] + rest;
      FirstSepAt(c[1..], rest);
    }
  }

  lemma {:induction false} NoSep(c: string)
    requires SEP !in c
    ensures FirstSep(c) == |c|
  {
    if c != [] {
      NoSep(c[1..]);
    }
  }

  lemma WalkLast(stack: seq<string>, c: string)
    requires Clean(c)
    ensures Walk(stack, c) == Directory(stack) + c
  {
    NoSep(c);
  }

  lemma WalkFront(stack: seq<string>, c: string, rest: string)
    requires SEP !in c
    ensures Walk(stack, c + [SEP] + rest) == Walk(Enter(stack, c), rest)
  {
    FirstSepAt(c, rest);
    assert (c + [SEP] + rest)[..|c|] == c && (c + [SEP] + rest)[|c| + 1..] == rest;
  }

  /** Walking down clean components enters each of them. */
  lemma {:induction false} WalkInto(stack: seq<string>, dir: seq<string>, rest: string)
    requires AllClean(dir)
    ensures Walk(stack, Relative(dir) + rest) == Walk(stack + dir, rest)
    decreases |dir|
  {
    hide Walk, FirstSep;
    if dir == [] {
      assert Relative(dir) + rest == rest && stack + dir == stack;
    } else {
      var c, more := dir[0], Relative(dir[1..]) + rest;
      assert Clean(c) && AllClean(dir[1..]);
      RelativeFront(dir);
      assert Relative(dir) + rest == c + [SEP] + more;
      WalkFront(stack, c, more);
      WalkInto(stack + [c], dir[1..], rest);
      assert stack + [c] + dir[1..] == stack + dir;
    }
  }

  lemma WalkDown(stack: seq<string>, dir: seq<string>, last: string)
    requires AllClean(dir) && Clean(last)
    ensures Walk(stack, Relative(dir) + last) == Directory(stack + dir) + last
  {
    hide Walk, Directory, Clean;
    WalkInto(stack, dir, last);
    WalkLast(stack + dir, last);
  }

  lemma {:induction false} RelativeFront(dir: seq<string>)
    requires dir != []
    ensures Relative(dir) == dir[0] + [SEP] + Relative(dir[1..])
  {
    var n := |dir| - 1;
    if n > 0 {
      RelativeFront(dir[..n]);
      assert dir[..n][1..] == dir[1..][..n - 1];
    }
  }

  /** The result is a directory followed by a last component. */
  lemma MeantShape(cwd: seq<string>, path: string) returns (dir: seq<string>, last: string)
    requires AllClean(cwd)
    ensures Meant(cwd, path) == Directory(dir) + last && AllClean(dir) && Clean(last)
    ensures Meant(cwd, path) != [] && Meant(cwd, path)[0] == SEP && Meant(cwd, path)[1..] == Relative(dir) + last
  {
    hide Walk, Relative, Clean;
    if path != [] && path[0] == SEP {
      dir, last := WalkShape([], path[1..]);
    } else {
      dir, last := WalkShape(cwd, path);
    }
    assert ([SEP] + Relative(dir) + last)[1..] == Relative(dir) + last;
  }

  /** Cleaning a clean name changes nothing. */
  lemma Idempotent(cwd: seq<string>, path: string)
    requires AllClean(cwd)
    ensures var m := Meant(cwd, path); m != [] && m[0] == SEP && Meant(cwd, m) == m
  {
    hide Walk, Relative, AllClean, Clean;
    var dir, last := MeantShape(cwd, path);
    WalkDown([], dir, last);
    assert [] + dir == dir;
  }

  /** The components of a path after its first separator. */
  function Components(rest: string): (cs: seq<string>)
    decreases |rest|
  {
    var i := FirstSep(rest);
    if i == |rest| then [rest] else [rest[..i]] + Components(rest[i + 1..])
  }

  lemma {:induction false} ComponentsOf(dir: seq<string>, last: string)
    requires AllClean(dir) && Clean(last)
    ensures Components(Relative(dir) + last) == dir + [last]
    decreases |dir|
  {
    hide FirstSep, Components;
    if dir == [] {
      assert Relative(dir) + last == last && dir + [last] == [last];
      ComponentsLast(last);
    } else {
      var c, rest := dir[0], Relative(dir[1..]) + last;
      assert Clean(c) && AllClean(dir[1..]);
      RelativeFront(dir);
      assert Relative(dir) + last == c + [SEP] + rest;
      ComponentsFront(c, rest);
      ComponentsOf(dir[1..], last);
      assert [c] + (dir[1..] + [last]) == dir + [last];
    }
  }

  lemma ComponentsLast(c: string)
    requires SEP !in c
    ensures Components(c) == [c]
  {
    NoSep(c);
  }

  lemma ComponentsFront(c: string, rest: string)
    requires SEP !in c
    ensures Components(c + [SEP] + rest) == [c] + Components(rest)
  {
    FirstSepAt(c, rest);
    assert (c + [SEP] + rest)[..|c|] == c && (c + [SEP] + rest)[|c| + 1..] == rest;
  }

  /** No component of the result is "." or "..". */
  lemma NoDots(cwd: seq<string>, path: string)
    requires AllClean(cwd)
    ensures var m := Meant(cwd, path); m != [] && m[0] == SEP && forall c <- Components(m[1..]) :: c != "." && c != ".."
  {
    hide Walk, Components, Relative, AllClean, Clean;
    var dir, last := MeantShape(cwd, path);
    ComponentsOf(dir, last);
    AllCleanLast(dir, last);
  }

  lemma AllCleanLast(dir: seq<string>, last: string)
    requires AllClean(dir) && Clean(last)
    ensures forall c <- dir + [last] :: c != "." && c != ".."
  {
  }

  // ----- what the dots mean

  /** The beginning of a path, up to and with a separator. */
  predicate Prefix(p: string)
  {
    p != [] && p[|p| - 1] == SEP
  }

  lemma {:induction false} SepInside(p: string)
    requires Prefix(p)
    ensures FirstSep(p) < |p|
  {
    if p[0] != SEP {
      SepInside(p[1..]);
    }
  }

  /** Where the beginning of a path leads does not depend on the rest. */
  lemma {:induction false} WalkPrefix(stack: seq<string>, p: string) returns (at: seq<string>)
    requires p == [] || Prefix(p)
    ensures forall rest :: Walk(stack, p + rest) == Walk(at, rest)
    decreases |p|
  {
    hide Walk;
    if p == [] {
      at := stack;
      assert forall rest: string :: p + rest == rest;
    } else {
      var i := FirstSep(p);
      SepInside(p);
      var c, more := p[..i], p[i + 1..];
      at := WalkPrefix(Enter(stack, c), more);
      forall rest
        ensures Walk(stack, p + rest) == Walk(at, rest)
      {
        assert p + rest == c + [SEP] + (more + rest);
        WalkFront(stack, c, more + rest);
      }
    }
  }

  lemma MeantPrefix(cwd: seq<string>, p: string) returns (at: seq<string>)
    requires p == [] || Prefix(p)
    ensures forall rest :: (p == [] ==> IsRelative(rest)) ==> Meant(cwd, p + rest) == Walk(at, rest)
    ensures p == [SEP] ==> at == []
  {
    hide Walk;
    if p != [] && p[0] == SEP {
      if |p| == 1 {
        at := [];
        assert p[1..] == [];
      } else {
        assert Prefix(p[1..]);
        at := WalkPrefix([], p[1..]);
      }
      forall rest
        ensures Meant(cwd, p + rest) == Walk(at, rest)
      {
        assert (p + rest)[1..] == p[1..] + rest;
        assert |p| == 1 ==> (p + rest)[1..] == rest;
      }
    } else {
      at := WalkPrefix(cwd, p);
    }
  }

  /** A "." on the way can be left out. */
  lemma DotSkipped(cwd: seq<string>, p: string, rest: string)
    requires Prefix(p) || (p == [] && IsRelative(rest))
    ensures Meant(cwd, p + "./" + rest) == Meant(cwd, p + rest)
  {
    hide Walk, Meant;
    var at := MeantPrefix(cwd, p);
    assert p + "./" + rest == p + ("./" + rest) && "./" + rest == "." + [SEP] + rest;
    WalkFront(at, ".", rest);
  }

  /** A ".." takes back the component before it. */
  lemma DotsUndo(cwd: seq<string>, p: string, c: string, rest: string)
    requires Clean(c) && (Prefix(p) || (p == [] && c != [] && IsRelative(rest)))
    ensures Meant(cwd, p + c + "/../" + rest) == Meant(cwd, p + rest)
  {
    hide Walk, Meant;
    var at := MeantPrefix(cwd, p);
    BackUp(p, c, rest);
    WalkFront(at, c, ".." + [SEP] + rest);
    WalkFront(at + [c], "..", rest);
  }

  lemma BackUp(p: string, c: string, rest: string)
    ensures p + c + "/../" + rest == p + (c + [SEP] + (".." + [SEP] + rest))
  {
    var up := [SEP] + ".." + [SEP];
    assert up == "/../";
    assert p + c + up + rest == p + (c + [SEP] + (".." + [SEP] + rest));
  }

  lemma Ending(p: string, c: string)
    ensures p + c + "/." == p + (c + [SEP] + ".") && p + c + "/.." == p + (c + [SEP] + "..")
  {
    assert "/." == [SEP] + "." && "/.." == [SEP] + "..";
  }

  /** The root is its own parent. */
  lemma RootStays(cwd: seq<string>, rest: string)
    ensures Meant(cwd, "/../" + rest) == Meant(cwd, "/" + rest)
  {
    hide Walk, Meant;
    var at := MeantPrefix(cwd, "/");
    assert "/../" + rest == "/" + (".." + [SEP] + rest);
    WalkFront([], "..", rest);
  }

  /** Dots at the end name a directory without a separator behind it. */
  lemma DotsAtEnd(cwd: seq<string>, p: string, c: string)
    requires Clean(c) && (Prefix(p) || (p == [] && c != []))
    ensures Meant(cwd, p + c + "/.") == Meant(cwd, p + c)
    ensures Meant(cwd, p + c + "/..") == Meant(cwd, p + ".")
    ensures Meant(cwd, "/.") == Meant(cwd, "/..") == "/"
  {
    hide Meant, Walk, Directory;
    var at := MeantPrefix(cwd, p);
    Ending(p, c);
    WalkFront(at, c, ".");
    WalkFront(at, c, "..");
    EndsAfter(at, c);
    DotsAtRoot(cwd);
  }

  lemma EndsAfter(stack: seq<string>, c: string)
    requires Clean(c)
    ensures Walk(stack + [c], ".") == Walk(stack, c) && Walk(stack + [c], "..") == Walk(stack, ".")
  {
    hide Walk;
    WalkLast(stack, c);
    EndsWithDots(stack + [c]);
    EndsWithDots(stack);
    assert (stack + [c])[..|stack|] == stack;
  }

  lemma DotsAtRoot(cwd: seq<string>)
    ensures Meant(cwd, "/.") == Meant(cwd, "/..") == "/"
  {
    hide Walk;
    assert "/."[1..] == "." && "/.."[1..] == "..";
    EndsWithDots([]);
  }

  lemma EndsWithDots(stack: seq<string>)
    ensures Walk(stack, ".") == Bare(stack) && Walk(stack, "..") == Bare(Parent(stack))
  {
    NoSep(".");
    NoSep("..");
  }

  /** A clean name stays what it is, and a relative name is meant from the working directory. */
  lemma CleanStays(cwd: seq<string>, dir: seq<string>, last: string)
    requires AllClean(dir) && Clean(last)
    ensures Meant(cwd, Directory(dir) + last) == Directory(dir) + last
  {
    hide Walk, Clean, AllClean;
    WalkDown([], dir, last);
    assert [] + dir == dir && (Directory(dir) + last)[1..] == Relative(dir) + last;
  }

  lemma RelativeFrom(cwd: seq<string>, path: string)
    requires AllClean(cwd) && IsRelative(path)
    ensures Meant(cwd, path) == Meant(cwd, Directory(cwd) + path)
  {
    hide Walk, Clean, AllClean;
    WalkInto([], cwd, path);
    assert [] + cwd == cwd && (Directory(cwd) + path)[1..] == Relative(cwd) + path;
  }

  // ----- the algorithm

  /** A zero-terminated string in a buffer. */
  predicate Holds(buffer: seq<char>, s: string)
  {
    |s| < |buffer| && buffer[..|s|] == s && buffer[|s|] == NUL && NUL !in s
  }

  lemma HoldsAt(buffer: seq<char>, s: string, i: nat)
    requires Holds(buffer, s) && i <= |s|
    ensures buffer[i] == NUL <==> i == |s|
    ensures i < |s| ==> buffer[i] == s[i]
  {
    if i < |s| {
      assert buffer[i] == buffer[..|s|][i];
      assert s[i] in s;
    }
  }

  lemma {:induction false} FirstSepIs(s: string, i: nat)
    requires i <= |s| && SEP !in s[..i] && (i == |s| || s[i] == SEP)
    ensures FirstSep(s) == i
  {
    if i > 0 {
      assert s[0] == s[..i][0] && s[1..][..i - 1] == s[..i][1..];
      FirstSepIs(s[1..], i - 1);
    }
  }

  lemma OneMore(before: string, path: string, from: nat, i: nat)
    requires from <= i < |path|
    ensures before + path[from..i + 1] == before + path[from..i] + [path[i]]
    ensures path[from..i + 1] == path[from..i] + [path[i]]
  {
  }

  /** The length of the first component with its separator. */
  function FirstLength(rest: string): (n: nat)
    ensures n <= |rest| && (rest != [] ==> n > 0)
  {
    var i := FirstSep(rest);
    if i == |rest| then i else i + 1
  }

  lemma FirstIs(rest: string, n: nat)
    requires n <= |rest| && SEP !in rest[..n]
    ensures n <= FirstLength(rest) && (n == |rest| ==> FirstLength(rest) == n)
            && (n < |rest| && rest[n] == SEP ==> FirstLength(rest) == n + 1)
  {
    if n == |rest| || rest[n] == SEP {
      FirstSepIs(rest, n);
    }
  }

  /** Copy up to and including the next separator, or to the end of the name or of the buffer. */
  method CopyComponent(name: array<char>, temp: array<char>, from: nat, to: nat, ghost path: string)
    returns (inpos: nat, outpos: nat)
    requires name != temp && name.Length == temp.Length && Holds(name[..], path) && from < |path| && to < temp.Length
    modifies temp
    ensures var n := FirstLength(path[from..]);
            if to + n < temp.Length then inpos == from + n && outpos == to + n else outpos == temp.Length
    ensures to < outpos <= temp.Length && outpos - to == inpos - from && inpos <= |path|
    ensures temp[..outpos] == old(temp[..to]) + path[from..inpos]
  {
    hide FirstLength, Holds;
    HoldsSize(name[..], path);
    HoldsAt(name[..], path, from);
    ghost var start := temp[..to];
    inpos, outpos := from, to;
    var found := false;
    assert path[from..from] == [];
    while name[inpos] != NUL && outpos < temp.Length && !found
      invariant from <= inpos <= |path| && outpos - to == inpos - from && outpos <= temp.Length
      invariant name[inpos] == NUL <==> inpos == |path|
      invariant temp[..outpos] == start + path[from..inpos]
      invariant found == (from < inpos && path[inpos - 1] == SEP)
      invariant SEP !in path[from..if found then inpos - 1 else inpos]
      decreases |path| - inpos
    {
      HoldsAt(name[..], path, inpos);
      HoldsAt(name[..], path, inpos + 1);
      OneMore(start, path, from, inpos);
      ghost var was := temp[..outpos];
      temp[outpos] := name[inpos];
      assert temp[..outpos + 1] == was + [path[inpos]];
      inpos, outpos := inpos + 1, outpos + 1;
      found := name[inpos - 1] == SEP;
    }
    FirstFrom(path, from, if found then inpos - 1 else inpos);
  }

  lemma FirstFrom(path: string, from: nat, k: nat)
    requires from <= k <= |path| && SEP !in path[from..k]
    ensures var n := FirstLength(path[from..]);
            && from <= from + n <= |path| && k <= from + n && (k == |path| ==> from + n == k)
            && (k < |path| && path[k] == SEP ==> from + n == k + 1)
  {
    assert path[from..][..k - from] == path[from..k];
    FirstIs(path[from..], k - from);
  }

  /** strrchr for the separator in the string temp[..n]. */
  method LastSep(temp: array<char>, n: nat) returns (p: int)
    requires n <= temp.Length
    ensures -1 <= p < n && (p >= 0 ==> temp[p] == SEP) && forall k :: p < k < n ==> temp[k] != SEP
  {
    p := n - 1;
    while p >= 0 && temp[p] != SEP
      invariant -1 <= p < n && forall k :: p < k < n ==> temp[k] != SEP
    {
      p := p - 1;
    }
  }

  lemma DirectoryAppend(stack: seq<string>, c: string)
    ensures Directory(stack + [c]) == Directory(stack) + c + [SEP]
  {
    assert (stack + [c])[..|stack|] == stack;
  }

  /** What is left of a directory's path without its last separator. */
  lemma DirectoryBare(stack: seq<string>)
    ensures |Directory(stack)| == 1 <==> stack == []
    ensures stack != [] ==>
              Directory(stack)[..|Directory(stack)| - 1] == Bare(stack) == Directory(Parent(stack)) + stack[|stack| - 1]
  {
    if stack != [] {
      var top := stack[|stack| - 1];
      DirectoryAppend(Parent(stack), top);
      assert stack == Parent(stack) + [top];
      assert Directory(stack) == Directory(Parent(stack)) + top + [SEP];
    }
  }

  /** "..": the path of the parent directory, in place. */
  method Ascend(temp: array<char>, to: nat, ghost stack: seq<string>) returns (outpos: nat)
    requires 0 < to < temp.Length && temp[..to] == Directory(stack) && forall c <- stack :: SEP !in c
    modifies temp
    ensures outpos <= to && temp[..outpos] == Directory(Parent(stack))
  {
    hide Directory;
    DirectoryBare(stack);
    ghost var was := temp[..to];
    temp[to - 1] := NUL;
    var p := LastSep(temp, to - 1);
    assert temp[..to - 1] == was[..to - 1];
    if p >= 0 {
      temp[p + 1] := NUL;
      outpos := p + 1;
      LastOfParent(stack, was, p);
      assert temp[..outpos] == was[..outpos];
    } else {
      LastOfParent(stack, was, p);
      temp[0] := SEP;
      outpos := 1;
      RootDirectory();
    }
  }

  lemma RootDirectory()
    ensures Directory([]) == [SEP]
  {
  }

  lemma LastOfParent(stack: seq<string>, path: string, p: int)
    requires path == Directory(stack) && forall c <- stack :: SEP !in c
    requires -1 <= p < |path| - 1 && (p >= 0 ==> path[p] == SEP) && forall k :: p < k < |path| - 1 ==> path[k] != SEP
    ensures p == -1 <==> stack == []
    ensures p >= 0 ==> path[..p + 1] == Directory(Parent(stack))
  {
    DirectoryBare(stack);
    if stack != [] {
      var parent, top := Directory(Parent(stack)), stack[|stack| - 1];
      assert path[..|path| - 1] == parent + top;
      assert top in stack;
      assert path[|parent| - 1] == parent[|parent| - 1] == SEP;
      forall k | |parent| <= k < |path| - 1
        ensures path[k] != SEP
      {
        assert path[k] == path[..|path| - 1][k] == top[k - |parent|];
      }
    }
  }

  /** The first component of what is left of the input, in the algorithm's terms. */
  lemma WalkCases(stack: seq<string>, path: string, i: nat)
    requires i < |path|
    ensures path[i] == '.' && i + 1 < |path| && path[i + 1] == SEP ==>
              Walk(stack, path[i..]) == Walk(stack, path[i + 2..])
    ensures path[i] == '.' && i + 1 == |path| ==> Walk(stack, path[i..]) == Bare(stack)
    ensures path[i] == '.' && i + 2 < |path| && path[i + 1] == '.' && path[i + 2] == SEP ==>
              Walk(stack, path[i..]) == Walk(Parent(stack), path[i + 3..])
    ensures path[i] == '.' && i + 2 == |path| && path[i + 1] == '.' ==> Walk(stack, path[i..]) == Bare(Parent(stack))
  {
    var rest := path[i..];
    if path[i] == '.' && i + 1 < |path| && path[i + 1] == SEP {
      FirstSepIs(rest, 1);
      assert rest[..1] == "." && rest[2..] == path[i + 2..];
    }
    if path[i] == '.' && i + 1 == |path| {
      FirstSepIs(rest, 1);
      assert rest == ".";
    }
    if path[i] == '.' && i + 2 < |path| && path[i + 1] == '.' && path[i + 2] == SEP {
      FirstSepIs(rest, 2);
      assert rest[..2] == ".." && rest[3..] == path[i + 3..];
    }
    if path[i] == '.' && i + 2 == |path| && path[i + 1] == '.' {
      FirstSepIs(rest, 2);
      assert rest == "..";
    }
  }

  /** The longest output, in the same cases. */
  lemma PeakCases(stack: seq<string>, path: string, i: nat)
    requires i < |path|
    ensures path[i] == '.' && i + 1 < |path| && path[i + 1] == SEP ==>
              Peak(stack, path[i..]) == Peak(stack, path[i + 2..])
    ensures path[i] == '.' && i + 1 == |path| ==> Peak(stack, path[i..]) == |Directory(stack)|
    ensures path[i] == '.' && i + 2 < |path| && path[i + 1] == '.' && path[i + 2] == SEP ==>
              Peak(stack, path[i..]) == Most(|Directory(stack)|, Peak(Parent(stack), path[i + 3..]))
    ensures path[i] == '.' && i + 2 == |path| && path[i + 1] == '.' ==> Peak(stack, path[i..]) == |Directory(stack)|
  {
    hide Peak, FirstSep, Directory, Parent;
    var rest := path[i..];
    if path[i] == '.' && i + 1 < |path| && path[i + 1] == SEP {
      FirstSepIs(rest, 1);
      assert rest[..1] == "." && rest[2..] == path[i + 2..];
      PeakFirst(stack, rest, 1);
      PeakBound(stack, path[i + 2..]);
    }
    if path[i] == '.' && i + 1 == |path| {
      FirstSepIs(rest, 1);
      assert rest == ".";
      PeakFirst(stack, rest, 1);
    }
    if path[i] == '.' && i + 2 < |path| && path[i + 1] == '.' && path[i + 2] == SEP {
      FirstSepIs(rest, 2);
      assert rest[..2] == ".." && rest[3..] == path[i + 3..];
      PeakFirst(stack, rest, 2);
    }
    if path[i] == '.' && i + 2 == |path| && path[i + 1] == '.' {
      FirstSepIs(rest, 2);
      assert rest == "..";
      PeakFirst(stack, rest, 2);
    }
  }

  lemma DotsAhead(rest: string, n: nat)
    requires n <= |rest| && (n == |rest| || rest[n] == SEP)
    ensures rest[..n] == "." ==> rest[0] == '.' && (|rest| == 1 || rest[1] == SEP)
    ensures rest[..n] == ".." ==> |rest| >= 2 && rest[0] == '.' && rest[1] == '.' && (|rest| == 2 || rest[2] == SEP)
  {
    if rest[..n] == "." {
      assert rest[0] == rest[..n][0] && n == 1;
    }
    if rest[..n] == ".." {
      assert rest[0] == rest[..n][0] && rest[1] == rest[..n][1] && n == 2;
    }
  }

  /** The input at a component that is copied. */
  predicate Ordinary(rest: string)
  {
    && rest != []
    && !(rest[0] == '.' && (|rest| == 1 || rest[1] == SEP))
    && !(|rest| >= 2 && rest[0] == '.' && rest[1] == '.' && (|rest| == 2 || rest[2] == SEP))
  }

  lemma CopiedLast(stack: seq<string>, rest: string)
    requires Ordinary(rest) && FirstSep(rest) == |rest|
    ensures Walk(stack, rest) == Directory(stack) + rest && rest[|rest| - 1] != SEP
    ensures Peak(stack, rest) == |Directory(stack)| + |rest|
  {
    hide Peak;
    PeakFirst(stack, rest, |rest|);
    DotsAhead(rest, |rest|);
    assert rest[..|rest|] == rest;
    assert rest[|rest| - 1] in rest;
  }

  lemma CopiedMore(stack: seq<string>, rest: string)
    requires Ordinary(rest) && FirstSep(rest) < |rest|
    ensures var n := FirstSep(rest);
            && Walk(stack, rest) == Walk(stack + [rest[..n]], rest[n + 1..])
            && Directory(stack + [rest[..n]]) == Directory(stack) + rest[..n + 1]
            && SEP !in rest[..n] && rest[n] == SEP
  {
    var n := FirstSep(rest);
    DotsAhead(rest, n);
    DirectoryAppend(stack, rest[..n]);
    assert rest[..n + 1] == rest[..n] + [SEP];
    Grouped(Directory(stack), rest[..n]);
  }

  lemma CopiedPeak(stack: seq<string>, rest: string)
    requires Ordinary(rest) && FirstSep(rest) < |rest|
    ensures var n := FirstSep(rest);
            Peak(stack, rest) == Peak(stack + [rest[..n]], rest[n + 1..]) >= |Directory(stack)| + n + 1
  {
    hide Directory, Ordinary, FirstSep, Peak;
    var n := FirstSep(rest);
    OrdinaryFirst(rest);
    PeakFirst(stack, rest, n);
    PeakBound(stack + [rest[..n]], rest[n + 1..]);
    RelativeBelow(stack);
  }

  lemma OrdinaryFirst(rest: string)
    requires Ordinary(rest)
    ensures rest[..FirstSep(rest)] != "." && rest[..FirstSep(rest)] != ".."
  {
    DotsAhead(rest, FirstSep(rest));
  }

  lemma Grouped(a: string, b: string)
    ensures a + b + [SEP] == a + (b + [SEP])
  {
  }

  /** The output so far: the path of a directory, or, at the end of the input, the goal itself,
      possibly with a zero in front of outpos. */
  ghost predicate Cleaned(temp: seq<char>, outpos: nat, goal: string)
  {
    |goal| <= outpos <= |temp| && temp[..|goal|] == goal && (|goal| == outpos || temp[|goal|] == NUL)
  }

  /** The loop invariant: at the start of a component, in the directory `stack`.  An absolute name starts
      with no output.  The flag high says that the output will not fit. */
  ghost predicate At(goal: string, path: string, temp: seq<char>, inpos: nat, outpos: nat, stack: seq<string>,
                     ended: bool, high: bool)
  {
    && inpos <= |path| && outpos < |temp|
    && if ended then inpos == |path| && Cleaned(temp, outpos, goal) && !high
       else if outpos == 0
            then inpos == 0 && path != [] && path[0] == SEP && goal == Normalised(path) && |path| < |temp| && !high
       else temp[..outpos] == Directory(stack) && (forall c <- stack :: SEP !in c) && Walk(stack, path[inpos..]) == goal
            && high == (Peak(stack, path[inpos..]) >= |temp|)
  }

  /** A zero over the last separator leaves the name without it. */
  method DropSep(temp: array<char>, outpos: nat, ghost stack: seq<string>)
    requires 0 < outpos < temp.Length && temp[..outpos] == Directory(stack)
    modifies temp
    ensures Cleaned(temp[..], outpos, Bare(stack))
  {
    hide Directory;
    DirectoryBare(stack);
    RootDirectory();
    if outpos > 1 {
      ghost var was := temp[..outpos];
      temp[outpos - 1] := NUL;
      assert temp[..outpos - 1] == was[..outpos - 1];
    }
  }

  /** One round of the loop; if it fills the buffer, the output does not fit. */
  method Component(name: array<char>, temp: array<char>, from: nat, to: nat, ghost path: string, ghost goal: string,
                   ghost dir: seq<string>, ghost high: bool)
    returns (inpos: nat, outpos: nat, ghost stack: seq<string>, ghost ended: bool)
    requires name != temp && name.Length == temp.Length && Holds(name[..], path)
    requires from < |path| && At(goal, path, temp[..], from, to, dir, false, high)
    modifies temp
    ensures from < inpos <= |path| && outpos <= temp.Length
    ensures if outpos == temp.Length then high else At(goal, path, temp[..], inpos, outpos, stack, ended, high)
  {
    hide Walk, Directory, Bare, FirstSep, Parent, Cleaned, Holds, Peak;
    inpos, outpos, stack, ended := from, to, dir, false;
    WalkCases(dir, path, from);
    PeakCases(dir, path, from);
    HoldsNear(name[..], path, from);
    DirectoryFacts(dir);
    if name[inpos] == '.' && name[inpos + 1] == SEP {
      inpos := inpos + 2;
    } else if name[inpos] == '.' && name[inpos + 1] == NUL {
      inpos := inpos + 1;
      DropSep(temp, outpos, dir);
      ended := true;
    } else if name[inpos] == '.' && name[inpos + 1] == '.' && (name[inpos + 2] == SEP || name[inpos + 2] == NUL) {
      inpos := inpos + 2;
      outpos := Ascend(temp, outpos, dir);
      stack := Parent(dir);
      DirectoryFacts(stack);
      ParentPlain(dir);
      if name[inpos] == SEP {
        inpos := inpos + 1;
      } else {
        DropSep(temp, outpos, stack);
        ended := true;
      }
    } else {
      inpos, outpos, stack, ended := CopyOrdinary(name, temp, from, to, path, goal, dir, high);
    }
  }

  lemma DirectoryFacts(stack: seq<string>)
    ensures |Directory(stack)| > 0
  {
  }

  lemma ParentPlain(stack: seq<string>)
    ensures (forall c <- stack :: SEP !in c) ==> forall c <- Parent(stack) :: SEP !in c
  {
  }

  /** The three characters a round may look at. */
  lemma HoldsNear(buffer: seq<char>, s: string, i: nat)
    requires Holds(buffer, s) && i < |s|
    ensures i + 1 < |buffer| && buffer[i] == s[i] != NUL
    ensures if i + 1 < |s| then buffer[i + 1] == s[i + 1] != NUL else buffer[i + 1] == NUL
    ensures i + 1 < |s| ==>
              i + 2 < |buffer| && if i + 2 < |s| then buffer[i + 2] == s[i + 2] != NUL else buffer[i + 2] == NUL
  {
    HoldsAt(buffer, s, i);
    HoldsAt(buffer, s, i + 1);
    if i + 1 < |s| {
      HoldsAt(buffer, s, i + 2);
    }
  }

  /** The last branch of a round. */
  method CopyOrdinary(name: array<char>, temp: array<char>, from: nat, to: nat, ghost path: string, ghost goal: string,
                      ghost dir: seq<string>, ghost high: bool)
    returns (inpos: nat, outpos: nat, ghost stack: seq<string>, ghost ended: bool)
    requires name != temp && name.Length == temp.Length && Holds(name[..], path)
    requires from < |path| && At(goal, path, temp[..], from, to, dir, false, high) && Ordinary(path[from..])
    modifies temp
    ensures from < inpos <= |path| && outpos <= temp.Length
    ensures if outpos == temp.Length then high else At(goal, path, temp[..], inpos, outpos, stack, ended, high)
  {
    hide Walk, Directory, Bare, Holds, Ordinary, Peak;
    ghost var was, rest, n := temp[..to], path[from..], FirstSep(path[from..]);
    inpos, outpos := CopyComponent(name, temp, from, to, path);
    stack, ended := dir, false;
    if to == 0 {
      FirstRound(path, dir);
      stack := [];
    } else if n == |rest| {
      CopiedLast(dir, rest);
      ended := true;
    } else {
      CopiedMore(dir, rest);
      CopiedPeak(dir, rest);
      if outpos < temp.Length {
        assert rest[..n + 1] == path[from..inpos] && rest[n + 1..] == path[inpos..];
        stack := dir + [rest[..n]];
      }
    }
  }

  lemma FirstRound(path: string, dir: seq<string>)
    requires path != [] && path[0] == SEP
    ensures FirstSep(path[0..]) == 0 && Directory([]) == path[0..1] && Walk([], path[1..]) == Normalised(path)
    ensures Peak([], path[1..]) <= |path|
  {
    PeakBound([], path[1..]);
    FirstSepIs(path[0..], 0);
  }

  lemma {:induction false} RelativeNoNul(stack: seq<string>)
    requires forall c <- stack :: NUL !in c
    ensures NUL !in Relative(stack)
  {
    if stack != [] {
      RelativeNoNul(stack[..|stack| - 1]);
    }
  }

  /** No terminator appears out of nowhere. */
  lemma {:induction false} WalkNoNul(stack: seq<string>, rest: string)
    requires (forall c <- stack :: NUL !in c) && NUL !in rest
    ensures NUL !in Walk(stack, rest)
    decreases |rest|
  {
    var i := FirstSep(rest);
    if i == |rest| {
      RelativeNoNul(stack);
      RelativeNoNul(Parent(stack));
      RelativeNoNul(Parent(Parent(stack)));
    } else {
      WalkNoNul(Enter(stack, rest[..i]), rest[i + 1..]);
    }
  }

  /** strcpy. */
  method CopyBack(name: array<char>, temp: array<char>, ghost s: string)
    requires name != temp && name.Length == temp.Length && Holds(temp[..], s)
    modifies name
    ensures Holds(name[..], s)
  {
    var i := 0;
    HoldsAt(temp[..], s, 0);
    while temp[i] != NUL
      invariant 0 <= i <= |s| && name[..i] == s[..i] && Holds(temp[..], s)
      invariant temp[i] == NUL <==> i == |s|
      decreases |s| - i
    {
      HoldsAt(temp[..], s, i);
      HoldsAt(temp[..], s, i + 1);
      name[i] := temp[i];
      i := i + 1;
    }
    name[i] := NUL;
    assert name[..][..|s|] == s;
  }

  /** A working directory as the system gives it. */
  predicate Proper(cwd: seq<string>)
  {
    forall c <- cwd :: c != [] && SEP !in c && NUL !in c
  }

  /** The working directory with a separator at its end, at the start of the output. */
  method StartFrom(temp: array<char>, cwd: string, ghost stack: seq<string>) returns (outpos: nat)
    requires cwd == Bare(stack) && Proper(stack) && |Directory(stack)| < temp.Length
    modifies temp
    ensures outpos == |Directory(stack)| && temp[..outpos] == Directory(stack)
  {
    hide Directory;
    DirectoryBare(stack);
    RootDirectory();
    BareEnd(stack);
    forall i | 0 <= i < |cwd| {
      temp[i] := cwd[i];
    }
    outpos := |cwd|;
    assert temp[..outpos] == cwd;
    if cwd[|cwd| - 1] != SEP {
      temp[outpos] := SEP;
      outpos := outpos + 1;
      assert temp[..outpos] == cwd + [SEP];
    }
    assert temp[..outpos] == Directory(stack);
  }

  /** Only the root ends with a separator by itself. */
  lemma BareEnd(stack: seq<string>)
    requires Proper(stack)
    ensures Bare(stack) != [] && |Bare(stack)| <= |Directory(stack)|
    ensures if stack == [] then Bare(stack) == Directory(stack) == [SEP]
            else Bare(stack)[|Bare(stack)| - 1] != SEP && Bare(stack) + [SEP] == Directory(stack)
  {
    if stack != [] {
      var top := stack[|stack| - 1];
      assert top in stack;
      assert top[|top| - 1] in top;
      DirectoryAppend(Parent(stack), top);
      assert stack == Parent(stack) + [top];
      assert Bare(stack)[|Bare(stack)| - 1] == top[|top| - 1];
    } else {
      RootDirectory();
    }
  }

  /** What becomes of a name.  A relative name needs the working directory, which is not given if it does
      not fit; and the code may store beyond its buffer. */
  datatype Outcome = Made | NoDirectory | Overrun

  predicate IsRelative(path: string)
  {
    path == [] || path[0] != SEP
  }

  /** File_MakeAbsoluteName with a buffer of the length of name.  It leaves the name that walking the
      components gives, exactly if the longest output on the way is shorter than the buffer; absolute
      names always are.  Otherwise it stores a zero behind the end of the buffer. */
  method MakeAbsoluteName(name: array<char>, cwd: string, ghost path: string, ghost stack0: seq<string>)
    returns (outcome: Outcome)
    requires Holds(name[..], path) && cwd == Bare(stack0) && Proper(stack0)
    modifies name
    ensures outcome == if IsRelative(path) && |cwd| >= name.Length then NoDirectory
                       else if Height(stack0, path) >= name.Length then Overrun
                       else Made
    ensures Holds(name[..], if outcome == Made then Meant(stack0, path) else path)
    ensures !IsRelative(path) ==> outcome == Made
  {
    hide Holds, Cleaned, Walk, Directory, Peak;
    HoldsSize(name[..], path);
    HoldsAt(name[..], path, 0);
    var temp := new char[name.Length](i => NUL);
    var inpos: nat, outpos: nat := 0, 0;
    ghost var goal, stack, ended := Meant(stack0, path), stack0, false;
    ghost var high := Height(stack0, path) >= name.Length;
    if name[0] == SEP {
      HeightAbsolute(stack0, path);
    } else {
      if |cwd| >= temp.Length {
        return NoDirectory;
      }
      assert path[0..] == path;
      PeakBound(stack0, path);
      BareEnd(stack0);
      if cwd[|cwd| - 1] != SEP && |cwd| + 1 == temp.Length {
        return Overrun;
      }
      outpos := StartFrom(temp, cwd, stack0);
      DirectoryFacts(stack0);
    }
    while name[inpos] != NUL && outpos < name.Length
      invariant inpos < name.Length && Holds(name[..], path) && inpos <= |path| && outpos <= temp.Length
      invariant if outpos == temp.Length then high else At(goal, path, temp[..], inpos, outpos, stack, ended, high)
      invariant name[inpos] == NUL <==> inpos == |path|
      decreases |path| - inpos
    {
      assert !ended;
      inpos, outpos, stack, ended := Component(name, temp, inpos, outpos, path, goal, stack, high);
      HoldsAt(name[..], path, inpos);
    }
    if outpos == temp.Length {
      return Overrun;
    }
    LastState(goal, path, temp[..], inpos, outpos, stack, ended, high);
    HoldsNoNul(name[..], path);
    MeantNoNul(stack0, path);
    ghost var was := temp[..];
    temp[outpos] := NUL;
    CleanedHolds(goal, was, temp[..], outpos);
    CopyBack(name, temp, goal);
    outcome := Made;
  }

  lemma MeantNoNul(cwd: seq<string>, path: string)
    requires Proper(cwd) && NUL !in path
    ensures NUL !in Meant(cwd, path)
  {
    hide Walk;
    if path != [] && path[0] == SEP {
      WalkNoNul([], path[1..]);
    } else {
      WalkNoNul(cwd, path);
    }
  }

  lemma HoldsSize(buffer: seq<char>, s: string)
    requires Holds(buffer, s)
    ensures |s| < |buffer| && (s != [] ==> buffer[0] != NUL)
  {
    HoldsAt(buffer, s, 0);
  }

  lemma HoldsNoNul(buffer: seq<char>, s: string)
    requires Holds(buffer, s)
    ensures NUL !in s && forall i :: 0 <= i <= |s| ==> NUL !in s[i..]
  {
  }

  /** When the input is used up the output is the goal. */
  lemma LastState(goal: string, path: string, temp: seq<char>, inpos: nat, outpos: nat, stack: seq<string>, ended: bool,
                  high: bool)
    requires At(goal, path, temp, inpos, outpos, stack, ended, high) && inpos == |path|
    ensures Cleaned(temp, outpos, goal) && outpos < |temp| && !high
  {
    if !ended {
      assert path[inpos..] == "";
      assert Walk(stack, "") == Directory(stack) + "" == Directory(stack);
      PeakBound(stack, "");
    }
  }

  lemma CleanedHolds(goal: string, was: seq<char>, temp: seq<char>, outpos: nat)
    requires Cleaned(was, outpos, goal) && outpos < |was| && temp == was[outpos := NUL] && NUL !in goal
    ensures Holds(temp, goal)
  {
    assert temp[..|goal|] == was[..|goal|];
  }
}
