/**
  The lexical path functions the extraction relies on, as Go's path/filepath defines them
  on a system whose separator is '/': Split and Join of strings, Clean, Join and Dir.
  Nothing here touches a file system.

  A path is read as its list of '/'-separated parts. Clean keeps a stack of the parts seen
  so far: empty parts and "." are dropped, ".." removes the part on top of the stack (or, in
  a relative path whose stack is empty or already climbing, is kept; in a rooted path it is
  dropped), any other part is pushed.
 */
module Paths {
  import opened Text

  /** strings.Split(p, "/"): the parts between separators; always at least one. */
  function Split(p: string): (parts: seq<string>)
    ensures |parts| >= 1
    ensures forall i :: 0 <= i < |parts| ==> '/' !in parts[i]
    decreases |p|
  {
    if p == [] then [""]
    else
      var rest := Split(p[1..]);
      if p[0] == '/' then [""] + rest else [[p[0]] + rest[0]] + rest[1..]
  }

  /** strings.Join(parts, "/") */
  function JoinSegs(parts: seq<string>): string
  {
    if |parts| == 0 then "" else if |parts| == 1 then parts[0] else parts[0] + "/" + JoinSegs(parts[1..])
  }

  predicate SlashFree(parts: seq<string>)
  {
    forall i :: 0 <= i < |parts| ==> '/' !in parts[i]
  }

  lemma {:induction false} JoinSegsAppend(a: seq<string>, b: seq<string>)
    requires |a| >= 1 && |b| >= 1
    ensures JoinSegs(a + b) == JoinSegs(a) + "/" + JoinSegs(b)
    decreases |a|
  {
    if |a| > 1 {
      JoinSegsAppend(a[1..], b);
      assert (a + b)[1..] == a[1..] + b;
    } else {
      assert (a + b)[1..] == b;
    }
  }

  lemma {:induction false} SplitSlashFree(x: string)
    requires '/' !in x
    ensures Split(x) == [x]
    decreases |x|
  {
    if x != [] {
      SplitSlashFree(x[1..]);
      assert [x[0]] + x[1..] == x;
    }
  }

  /** Splitting at a separator splits the two sides separately. */
  lemma {:induction false} SplitAppend(a: string, b: string)
    ensures Split(a + "/" + b) == Split(a) + Split(b)
    decreases |a|
  {
    var p := a + "/" + b;
    if a == [] {
      assert p == "/" + b && p[1..] == b;
    } else {
      SplitAppend(a[1..], b);
      assert p[0] == a[0] && p[1..] == a[1..] + "/" + b;
      SplitHead(a[0], Split(a[1..]), Split(b));
    }
  }

  /** The step of SplitAppend: one character in front of both sides. */
  lemma SplitHead(c: char, left: seq<string>, right: seq<string>)
    requires |left| >= 1
    ensures c == '/' ==> [""] + (left + right) == ([""] + left) + right
    ensures c != '/' ==> [[c] + (left + right)[0]] + (left + right)[1..] == ([[c] + left[0]] + left[1..]) + right
  {
    if c != '/' {
      assert (left + right)[0] == left[0];
      assert (left + right)[1..] == left[1..] + right;
    }
  }

  /** Joining the parts of a path gives the path back. */
  lemma {:induction false} JoinSplit(p: string)
    ensures JoinSegs(Split(p)) == p
    decreases |p|
  {
    if p != [] {
      JoinSplit(p[1..]);
      var rest := Split(p[1..]);
      if p[0] == '/' {
        assert Split(p) == [""] + rest;
        assert ([""] + rest)[1..] == rest;
      } else {
        var parts := Split(p);
        assert parts == [[p[0]] + rest[0]] + rest[1..];
        if |rest| == 1 {
          assert p == [p[0]] + p[1..];
        } else {
          assert parts[1..] == rest[1..];
          assert JoinSegs(rest) == rest[0] + "/" + JoinSegs(rest[1..]);
          assert p == [p[0]] + p[1..];
        }
      }
    }
  }

  /** Splitting the join of separator-free parts gives the parts back. */
  lemma {:induction false} SplitJoin(parts: seq<string>)
    requires |parts| >= 1 && SlashFree(parts)
    ensures Split(JoinSegs(parts)) == parts
    decreases |parts|
  {
    if |parts| == 1 {
      SplitSlashFree(parts[0]);
    } else {
      SplitJoin(parts[1..]);
      SplitSlashFree(parts[0]);
      SplitAppend(parts[0], JoinSegs(parts[1..]));
      assert [parts[0]] + parts[1..] == parts;
    }
  }

  /** One part applied to the stack of a path being cleaned. */
  function Step(stack: seq<string>, part: string, rooted: bool): seq<string>
  {
    if part == "" || part == "." then stack
    else if part == ".." then
      if |stack| > 0 && stack[|stack| - 1] != ".." then stack[..|stack| - 1]
      else if rooted then stack
      else stack + [".."]
    else stack + [part]
  }

  /** The lexical loop of filepath.Clean over a list of parts. */
  function Normalize(stack: seq<string>, parts: seq<string>, rooted: bool): seq<string>
    decreases |parts|
  {
    if parts == [] then stack else Normalize(Step(stack, parts[0], rooted), parts[1..], rooted)
  }

  /** How filepath.Clean writes a stack back as a path. */
  function Render(rooted: bool, stack: seq<string>): string
  {
    if rooted then "/" + JoinSegs(stack) else if stack == [] then "." else JoinSegs(stack)
  }

  /** filepath.Clean(p). The result is never empty (an empty result becomes ".") and it is
      rooted exactly when p is. */
  function Clean(p: string): string
  {
    var rooted := |p| > 0 && p[0] == '/';
    Render(rooted, Normalize([], Split(p), rooted))
  }

  /** Clean never returns an empty path, and its result is rooted exactly when p is. */
  lemma CleanShape(p: string)
    ensures Clean(p) != ""
    ensures Clean(p)[0] == '/' <==> |p| > 0 && p[0] == '/'
  {
    var rooted := |p| > 0 && p[0] == '/';
    NormalizeClean([], Split(p), rooted);
    RenderShape(rooted, Normalize([], Split(p), rooted));
  }

  /** Rendering a clean stack gives a non-empty path that starts with a separator exactly
      when it is rooted. */
  lemma RenderShape(rooted: bool, stack: seq<string>)
    requires CleanStack(stack)
    ensures var r := Render(rooted, stack); r != "" && (r[0] == '/' <==> rooted)
  {
    if !rooted && stack != [] {
      assert Element(stack[0]);
      if |stack| > 1 {
        assert JoinSegs(stack) == stack[0] + "/" + JoinSegs(stack[1..]);
      }
      assert JoinSegs(stack)[0] == stack[0][0];
    }
  }

  /** filepath.Join(a, b): the non-empty arguments from the first non-empty one on,
      joined by a separator and cleaned; "" when both are empty. The result is empty only
      then, and it is rooted exactly when the first non-empty argument is. */
  function Join(a: string, b: string): string
  {
    if a != "" then Clean(a + "/" + b) else if b != "" then Clean(b) else ""
  }

  /** Join is empty only when both arguments are, and it is rooted exactly when its first
      non-empty argument is. */
  lemma JoinShape(a: string, b: string)
    ensures Join(a, b) == "" <==> a == "" && b == ""
    ensures a != "" ==> (Join(a, b)[0] == '/' <==> a[0] == '/')
    ensures a == "" && b != "" ==> (Join(a, b)[0] == '/' <==> b[0] == '/')
  {
    if a != "" {
      CleanShape(a + "/" + b);
    } else if b != "" {
      CleanShape(b);
    }
  }

  /** The index of the last separator in p, or -1. */
  function LastSlash(p: string): (i: int)
    ensures -1 <= i < |p|
    ensures i >= 0 ==> p[i] == '/'
    ensures forall j :: i < j < |p| ==> p[j] != '/'
  {
    if p == [] then -1 else if p[|p| - 1] == '/' then |p| - 1 else LastSlash(p[..|p| - 1])
  }

  /** filepath.Dir(p): everything up to the last separator, cleaned. It is never empty,
      and it is rooted exactly when p is. */
  function Dir(p: string): string
  {
    Clean(p[..LastSlash(p) + 1])
  }

  /** Dir is never empty, and it is rooted exactly when p is. */
  lemma DirShape(p: string)
    ensures Dir(p) != ""
    ensures Dir(p)[0] == '/' <==> |p| > 0 && p[0] == '/'
  {
    var q := p[..LastSlash(p) + 1];
    assert LastSlash(p) == -1 && |p| > 0 ==> p[0] != '/';
    CleanShape(q);
  }

  // ---------------------------------------------------------------------------
  // Stacks

  /** A part that can sit on the stack: not empty, not ".", no separator. */
  predicate Element(part: string)
  {
    part != "" && part != "." && '/' !in part
  }

  /** An element that names a child, as opposed to "..". */
  predicate Name(part: string)
  {
    Element(part) && part != ".."
  }

  /** What Clean's stack always looks like: elements, with the ".." ones all at the bottom. */
  predicate CleanStack(stack: seq<string>)
  {
    && (forall i :: 0 <= i < |stack| ==> Element(stack[i]))
    && (forall i, j :: 0 <= i < j < |stack| && stack[j] == ".." ==> stack[i] == "..")
  }

  predicate Names(parts: seq<string>)
  {
    forall i :: 0 <= i < |parts| ==> Name(parts[i])
  }

  /** parts lies strictly below base. */
  predicate StrictlyBelow(parts: seq<string>, base: seq<string>)
  {
    |base| < |parts| && parts[..|base|] == base
  }

  lemma {:induction false} NormalizeAppend(stack: seq<string>, a: seq<string>, b: seq<string>, rooted: bool)
    ensures Normalize(stack, a + b, rooted) == Normalize(Normalize(stack, a, rooted), b, rooted)
    decreases |a|
  {
    if a == [] {
      assert a + b == b;
    } else {
      assert (a + b)[0] == a[0] && (a + b)[1..] == a[1..] + b;
      NormalizeAppend(Step(stack, a[0], rooted), a[1..], b, rooted);
    }
  }

  /** Cleaning keeps the stack in shape. */
  lemma {:induction false} NormalizeClean(stack: seq<string>, parts: seq<string>, rooted: bool)
    requires CleanStack(stack) && SlashFree(parts)
    requires rooted ==> Names(stack)
    ensures CleanStack(Normalize(stack, parts, rooted))
    ensures rooted ==> Names(Normalize(stack, parts, rooted))
    decreases |parts|
  {
    if parts != [] {
      var next := Step(stack, parts[0], rooted);
      assert CleanStack(next) by {
        if parts[0] == ".." && !(|stack| > 0 && stack[|stack| - 1] != "..") && !rooted {
          assert forall i :: 0 <= i < |stack| ==> stack[i] == "..";
        }
      }
      NormalizeClean(next, parts[1..], rooted);
    }
  }

  /** Pushing child names only appends them. */
  lemma {:induction false} NormalizeNames(stack: seq<string>, parts: seq<string>, rooted: bool)
    requires Names(parts)
    ensures Normalize(stack, parts, rooted) == stack + parts
    decreases |parts|
  {
    if parts != [] {
      NormalizeNames(stack + [parts[0]], parts[1..], rooted);
      assert stack + [parts[0]] + parts[1..] == stack + parts;
    }
  }

  /** k copies of "..". */
  function Ups(k: nat): (r: seq<string>)
    ensures |r| == k && forall i :: 0 <= i < k ==> r[i] == ".."
  {
    if k == 0 then [] else Ups(k - 1) + [".."]
  }

  /** Climbing k levels from a stack of child names. */
  lemma {:induction false} NormalizeUps(stack: seq<string>, k: nat)
    requires Names(stack)
    ensures Normalize(stack, Ups(k), false) == if k <= |stack| then stack[..|stack| - k] else Ups(k - |stack|)
  {
    if k > 0 {
      NormalizeUps(stack, k - 1);
      NormalizeAppend(stack, Ups(k - 1), [".."], false);
      var before := Normalize(stack, Ups(k - 1), false);
      if k - 1 < |stack| {
        assert before[..|before| - 1] == stack[..|stack| - k];
      } else {
        assert before == Ups(k - 1 - |stack|);
        assert before + [".."] == Ups(k - |stack|);
      }
    }
  }

  /** The number of ".." at the bottom of a stack. */
  function LeadingUps(stack: seq<string>): (k: nat)
    ensures k <= |stack| && forall i :: 0 <= i < k ==> stack[i] == ".."
    ensures k < |stack| ==> stack[k] != ".."
  {
    if stack == [] || stack[0] != ".." then 0 else 1 + LeadingUps(stack[1..])
  }

  /** A clean stack is its leading ".." followed by child names. */
  lemma CleanStackSplits(stack: seq<string>)
    requires CleanStack(stack)
    ensures stack == Ups(LeadingUps(stack)) + stack[LeadingUps(stack)..]
    ensures Names(stack[LeadingUps(stack)..])
  {
    var k := LeadingUps(stack);
    assert stack[..k] == Ups(k);
    assert stack == stack[..k] + stack[k..];
  }

  /** One more part after a clean relative stack u: applying u to the stack and then
      stepping is the same as stepping u first and applying the result. */
  lemma StepThroughClean(stack: seq<string>, u: seq<string>, last: string, rooted: bool)
    requires CleanStack(u)
    ensures Step(Normalize(stack, u, rooted), last, rooted) == Normalize(stack, Step(u, last, false), rooted)
  {
    if last == ".." && |u| > 0 && u[|u| - 1] != ".." {
      var v := u[..|u| - 1];
      assert u == v + [u[|u| - 1]];
      NormalizeAppend(stack, v, [u[|u| - 1]], rooted);
    } else if last != "" && last != "." {
      NormalizeAppend(stack, u, [last], rooted);
    }
  }

  /** Cleaning a list of parts onto a stack is the same as cleaning the parts on their own
      (as a relative path) and then applying the result to the stack. */
  lemma {:induction false} NormalizeThroughClean(stack: seq<string>, parts: seq<string>, rooted: bool)
    requires SlashFree(parts)
    ensures Normalize(stack, parts, rooted) == Normalize(stack, Normalize([], parts, false), rooted)
    decreases |parts|
  {
    if parts != [] {
      var init := parts[..|parts| - 1];
      var last := parts[|parts| - 1];
      assert parts == init + [last];
      NormalizeThroughClean(stack, init, rooted);
      NormalizeAppend(stack, init, [last], rooted);
      NormalizeAppend([], init, [last], false);
      var u := Normalize([], init, false);
      NormalizeClean([], init, false);
      StepThroughClean(stack, u, last, rooted);
    }
  }

  // ---------------------------------------------------------------------------
  // Joining a name below a base directory

  /** A base directory given by child names, such as ["output", "42"]. */
  predicate PlainBase(base: seq<string>)
  {
    |base| >= 1 && Names(base)
  }

  /** The parts of Join(JoinSegs(base), name): the name cleaned onto the base. */
  function Target(base: seq<string>, name: string): seq<string>
  {
    Normalize(base, Split(name), false)
  }

  /** A plain base directory is already clean. */
  lemma CleanPlainBase(base: seq<string>)
    requires PlainBase(base)
    ensures Clean(JoinSegs(base)) == JoinSegs(base)
  {
    SplitJoin(base);
    NormalizeNames([], base, false);
    assert [] + base == base;
    var p := JoinSegs(base);
    if |base| == 1 {
      assert p == base[0];
    } else {
      assert p == base[0] + "/" + JoinSegs(base[1..]);
    }
    assert p[0] == base[0][0];
    assert p[0] != '/';
  }

  /** filepath.Join of a plain base and any name is the rendering of Target. */
  lemma JoinIsTarget(base: seq<string>, name: string)
    requires PlainBase(base)
    ensures Join(JoinSegs(base), name) == Render(false, Target(base, name))
  {
    var p := JoinSegs(base);
    SplitJoin(base);
    SplitAppend(p, name);
    NormalizeAppend([], base, Split(name), false);
    NormalizeNames([], base, false);
    assert [] + base == base;
    if |base| == 1 {
      assert p == base[0];
    } else {
      assert p == base[0] + "/" + JoinSegs(base[1..]);
    }
    assert p != "" && p[0] == base[0][0];
    assert (p + "/" + name)[0] == p[0];
  }

  lemma HasPrefixCommon(a: string, b: string, c: string)
    ensures HasPrefix(a + b, a + c) <==> HasPrefix(b, c)
  {
    if HasPrefix(a + b, a + c) {
      assert (a + b)[..|a + c|] == a + b[..|c|];
      assert b[..|c|] == (a + b)[..|a + c|][|a|..];
    }
    if HasPrefix(b, c) {
      assert (a + b)[..|a + c|] == a + b[..|c|];
    }
  }

  /** Two separator-free first parts followed by a separator agree when one path starts
      with the other. */
  lemma FirstPartsAgree(x: string, rest: string, y: string)
    requires '/' !in x && '/' !in y
    requires HasPrefix(x + "/" + rest, y + "/")
    ensures x == y
  {
    var s := x + "/" + rest;
    var p := y + "/";
    assert s[..|p|] == p;
    assert forall j :: 0 <= j < |y| ==> s[j] == y[j] != '/';
    assert s[|y|] == '/';
    assert forall j :: 0 <= j < |x| ==> s[j] == x[j] != '/';
    assert s[|x|] == '/';
    assert |x| == |y|;
    assert x == s[..|x|] == y;
  }

  lemma NoSeparatorNoPrefix(x: string, p: string)
    requires '/' !in x && |p| >= 1 && p[|p| - 1] == '/'
    ensures !HasPrefix(x, p)
  {
    if |p| <= |x| {
      assert x[..|p|][|p| - 1] != p[|p| - 1];
    }
  }

  /** A clean stack whose bottom is a child name holds child names only. */
  lemma CleanStackOfNames(stack: seq<string>)
    requires CleanStack(stack) && |stack| >= 1 && stack[0] != ".."
    ensures Names(stack)
  {
  }

  /** A joined path starts with the base and a separator exactly when its parts lie
      strictly below the base's parts. */
  lemma {:induction false} PrefixIffBelow(parts: seq<string>, base: seq<string>)
    requires SlashFree(parts) && SlashFree(base) && |base| >= 1
    ensures HasPrefix(JoinSegs(parts), JoinSegs(base) + "/") <==> StrictlyBelow(parts, base)
    decreases |base|
  {
    var b0 := base[0];
    if |parts| == 1 {
      NoSeparatorNoPrefix(parts[0], JoinSegs(base) + "/");
    }
    if HasPrefix(JoinSegs(parts), JoinSegs(base) + "/") {
      assert |parts| >= 2;
      var rest := JoinSegs(parts[1..]);
      assert JoinSegs(parts) == parts[0] + "/" + rest;
      if |base| == 1 {
        FirstPartsAgree(parts[0], rest, b0);
        assert parts[..1] == base;
      } else {
        var brest := JoinSegs(base[1..]);
        assert JoinSegs(base) + "/" == b0 + "/" + (brest + "/");
        assert HasPrefix(parts[0] + "/" + rest, b0 + "/") by {
          assert HasPrefix(JoinSegs(parts), b0 + "/" + (brest + "/"));
          assert (b0 + "/" + (brest + "/"))[..|b0 + "/"|] == b0 + "/";
        }
        FirstPartsAgree(parts[0], rest, b0);
        HasPrefixCommon(b0 + "/", rest, brest + "/");
        assert parts[0] + "/" + rest == (b0 + "/") + rest;
        PrefixIffBelow(parts[1..], base[1..]);
        assert parts[..|base|] == [parts[0]] + parts[1..][..|base| - 1];
        assert base == [b0] + base[1..];
      }
    }
    if StrictlyBelow(parts, base) {
      var t := parts[|base|..];
      assert parts == base + t;
      JoinSegsAppend(base, t);
      assert JoinSegs(parts) == JoinSegs(base) + "/" + JoinSegs(t);
      assert (JoinSegs(base) + "/" + JoinSegs(t))[..|JoinSegs(base) + "/"|] == JoinSegs(base) + "/";
    }
  }

  /** The zip-slip guard of unzip: the joined path starts with the cleaned base and a
      separator. */
  predicate Confined(dst: string, name: string)
  {
    HasPrefix(Join(dst, name), Clean(dst) + "/")
  }

  /** An empty name joins to the base itself, which the guard rejects. */
  lemma EmptyNameRejected(dst: string)
    ensures !Confined(dst, "")
  {
    if dst != "" {
      var rooted := dst[0] == '/';
      SplitAppend(dst, "");
      assert dst + "/" + "" == dst + "/";
      assert Split("") == [""];
      NormalizeAppend([], Split(dst), [""], rooted);
      assert Clean(dst + "/") == Clean(dst);
    }
  }

  /** The guard accepts a name exactly when the joined path lies strictly below the base. */
  lemma ConfinedIffBelow(base: seq<string>, name: string)
    requires PlainBase(base)
    ensures Confined(JoinSegs(base), name) <==> StrictlyBelow(Target(base, name), base)
  {
    var t := Target(base, name);
    JoinIsTarget(base, name);
    CleanPlainBase(base);
    NormalizeClean(base, Split(name), false);
    if t == [] {
      assert Join(JoinSegs(base), name) == ".";
      assert |JoinSegs(base) + "/"| >= 2 by {
        if |base| > 1 {
          assert JoinSegs(base) == base[0] + "/" + JoinSegs(base[1..]);
        }
      }
    } else {
      PrefixIffBelow(t, base);
    }
  }

  /** What the guard accepts is a proper descendant: the joined path is the base, a
      separator and child names only (no "..", no ".", no empty part). */
  lemma ConfinedIsDescendant(base: seq<string>, name: string)
    requires PlainBase(base) && Confined(JoinSegs(base), name)
    ensures var t := Target(base, name);
      && StrictlyBelow(t, base) && Names(t[|base|..])
      && Join(JoinSegs(base), name) == JoinSegs(base) + "/" + JoinSegs(t[|base|..])
  {
    var t := Target(base, name);
    ConfinedIffBelow(base, name);
    JoinIsTarget(base, name);
    NormalizeClean(base, Split(name), false);
    BelowIsDescendant(base, t);
  }

  /** A clean stack strictly below a plain base continues it with child names only. */
  lemma BelowIsDescendant(base: seq<string>, t: seq<string>)
    requires PlainBase(base) && CleanStack(t) && StrictlyBelow(t, base)
    ensures Names(t[|base|..])
    ensures JoinSegs(t) == JoinSegs(base) + "/" + JoinSegs(t[|base|..])
  {
    assert t[0] == base[0];
    CleanStackOfNames(t);
    var tail := t[|base|..];
    assert t == base + tail;
    JoinSegsAppend(base, tail);
  }

  /** The full characterisation of the guard. Clean the name on its own, as a relative
      path: it climbs k levels (its leading ".." parts) and then descends through rest.
      The guard accepts it exactly when it climbs no higher than the base, descends
      further than it climbed, and on the way down re-enters the very directories it
      climbed out of. */
  lemma ConfinedIffReenters(base: seq<string>, name: string)
    requires PlainBase(base)
    ensures var u := Normalize([], Split(name), false);
      var k := LeadingUps(u);
      var rest := u[k..];
      Confined(JoinSegs(base), name) <==> k <= |base| && k < |rest| && rest[..k] == base[|base| - k..]
  {
    var u := Normalize([], Split(name), false);
    var k := LeadingUps(u);
    var rest := u[k..];
    TargetClimbsThenDescends(base, name);
    assert Target(base, name) == Climb(base, k) + rest;
    ConfinedIffBelow(base, name);
    ReenterIffBelow(base, k, rest);
  }

  /** The name cleaned onto the base: climb out of the base k levels, then push rest. */
  lemma TargetClimbsThenDescends(base: seq<string>, name: string)
    requires PlainBase(base)
    ensures var u := Normalize([], Split(name), false);
      var k := LeadingUps(u);
      Names(u[k..]) && Target(base, name) == Climb(base, k) + u[k..]
  {
    var u := Normalize([], Split(name), false);
    NormalizeClean([], Split(name), false);
    var k := LeadingUps(u);
    var rest := u[k..];
    CleanStackSplits(u);
    NormalizeThroughClean(base, Split(name), false);
    assert Target(base, name) == Normalize(base, Ups(k) + rest, false);
    NormalizeAppend(base, Ups(k), rest, false);
    NormalizeUps(base, k);
    assert Normalize(base, Ups(k), false) == Climb(base, k);
    NormalizeNames(Climb(base, k), rest, false);
  }

  /** The stack left after climbing k levels out of a base of child names. */
  function Climb(base: seq<string>, k: nat): (r: seq<string>)
    ensures k <= |base| ==> r == base[..|base| - k]
  {
    if k <= |base| then base[..|base| - k] else Ups(k - |base|)
  }

  /** Climbing k levels and pushing child names ends strictly below the base exactly when
      the climb stays inside the base and the names re-enter what was climbed out of. */
  lemma ReenterIffBelow(base: seq<string>, k: nat, rest: seq<string>)
    requires PlainBase(base) && Names(rest)
    ensures StrictlyBelow(Climb(base, k) + rest, base)
      <==> k <= |base| && k < |rest| && rest[..k] == base[|base| - k..]
  {
    var t := Climb(base, k) + rest;
    if k <= |base| {
      if k < |rest| && rest[..k] == base[|base| - k..] {
        assert t[..|base|] == base[..|base| - k] + rest[..k];
        assert base == base[..|base| - k] + base[|base| - k..];
      }
      if StrictlyBelow(t, base) {
        assert t[..|base|][|base| - k..] == rest[..k];
      }
    } else {
      assert t[0] == ".." && base[0] != "..";
    }
  }

  /** Without ".." parts, cleaning only pushes, and pushes at least once exactly when some
      part is a child name. */
  lemma {:induction false} NormalizeGrows(stack: seq<string>, parts: seq<string>)
    requires SlashFree(parts)
    requires forall i :: 0 <= i < |parts| ==> parts[i] != ".."
    ensures var r := Normalize(stack, parts, false);
      |r| >= |stack| && r[..|stack|] == stack
      && (|r| > |stack| <==> exists i :: 0 <= i < |parts| && Name(parts[i]))
    decreases |parts|
  {
    if parts != [] {
      var next := Step(stack, parts[0], false);
      NormalizeGrows(next, parts[1..]);
      var r := Normalize(stack, parts, false);
      assert r[..|next|] == next;
      assert r[..|stack|] == next[..|stack|];
      if exists i :: 0 <= i < |parts| && Name(parts[i]) {
        var i :| 0 <= i < |parts| && Name(parts[i]);
        if i > 0 {
          assert Name(parts[1..][i - 1]);
        }
      }
      if exists i :: 0 <= i < |parts[1..]| && Name(parts[1..][i]) {
        var i :| 0 <= i < |parts[1..]| && Name(parts[1..][i]);
        assert Name(parts[i + 1]);
      }
    }
  }

  /** A name that only climbs (cleaned on its own it is "..", "../.." and so on) or that
      cleans to nothing ("", ".", "a/..") is rejected. */
  lemma ClimbingOrEmptyRejected(base: seq<string>, name: string)
    requires PlainBase(base)
    requires var u := Normalize([], Split(name), false); forall i :: 0 <= i < |u| ==> u[i] == ".."
    ensures !Confined(JoinSegs(base), name)
  {
    ConfinedIffReenters(base, name);
    var u := Normalize([], Split(name), false);
    NormalizeClean([], Split(name), false);
    var k := LeadingUps(u);
    assert k == |u|;
  }

  /** filepath.Dir of a path made of several separator-free parts drops the last part,
      when the parts before it are already clean. */
  lemma DirDropsLast(parts: seq<string>)
    requires |parts| >= 2 && PlainBase(parts[..|parts| - 1]) && '/' !in parts[|parts| - 1]
    ensures Dir(JoinSegs(parts)) == JoinSegs(parts[..|parts| - 1])
  {
    var init := parts[..|parts| - 1];
    var last := parts[|parts| - 1];
    assert parts == init + [last];
    JoinSegsAppend(init, [last]);
    LastSlashAfter(JoinSegs(init), last);
    CleanTrailingSlash(init);
  }

  /** The last separator of a + "/" + b, when b holds none, is the one in between. */
  lemma LastSlashAfter(a: string, b: string)
    requires '/' !in b
    ensures LastSlash(a + "/" + b) == |a|
    ensures (a + "/" + b)[..|a| + 1] == a + "/"
  {
    var p := a + "/" + b;
    assert p[|a|] == '/';
    assert forall j :: |a| < j < |p| ==> p[j] == b[j - |a| - 1];
  }

  /** Cleaning a plain path with a trailing separator removes the separator. */
  lemma CleanTrailingSlash(init: seq<string>)
    requires PlainBase(init)
    ensures Clean(JoinSegs(init) + "/") == JoinSegs(init)
  {
    SplitJoin(init);
    SplitAppend(JoinSegs(init), "");
    assert JoinSegs(init) + "/" + "" == JoinSegs(init) + "/";
    NormalizeAppend([], init, [""], false);
    NormalizeNames([], init, false);
    assert [] + init == init;
    if |init| == 1 {
      assert JoinSegs(init) == init[0];
    } else {
      assert JoinSegs(init) == init[0] + "/" + JoinSegs(init[1..]);
    }
    assert (JoinSegs(init) + "/")[0] == init[0][0] != '/';
  }
}
