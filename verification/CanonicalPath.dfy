/** Path canonicalisation and the current directory (src/commons.c, do_cd in
    src/builtins.c). */
module CanonicalPath {
  import opened Disk
  import opened PathText
  import Paths
  import opened Volume
  import DirFile

  const DOT: byte := 46
  const MAXPROMPT: nat := 256

  predicate StartsDot(t: Name) {
    |t| >= 1 && t[0] == DOT
  }

  predicate StartsDotDot(t: Name) {
    |t| >= 2 && t[0] == DOT && t[1] == DOT
  }

  /** A token that starts with ".." pops, another that starts with "." is
      skipped, the rest are pushed. */
  function Resolve(stack: seq<Name>, t: Name): seq<Name> {
    if StartsDotDot(t) then if stack == [] then [] else stack[..|stack| - 1]
    else if StartsDot(t) then stack
    else stack + [t]
  }

  function Fold(stack: seq<Name>, tokens: seq<Name>): seq<Name>
    decreases |tokens|
  {
    if tokens == [] then stack else Fold(Resolve(stack, tokens[0]), tokens[1..])
  }

  /** Each name behind a '/'. */
  function Render(stack: seq<Name>): seq<byte> {
    if stack == [] then [] else Render(stack[..|stack| - 1]) + [SLASH] + stack[|stack| - 1]
  }

  function PathOf(stack: seq<Name>): seq<byte> {
    if stack == [] then [SLASH] else Render(stack)
  }

  function Target(cwd: seq<byte>, path: seq<byte>): seq<byte> {
    if Paths.Absolute(path) then path else cwd + path
  }

  function Canonical(cwd: seq<byte>, path: seq<byte>): seq<byte> {
    PathOf(Fold([], Components(Target(cwd, path))))
  }

  /** Names that a canonical path is made of. */
  predicate Clean(stack: seq<Name>) {
    forall k: nat :: k < |stack| ==> IsComponent(stack[k]) && !StartsDot(stack[k])
  }

  // ----- the fold -----

  lemma {:induction false} FoldClean(stack: seq<Name>, tokens: seq<Name>)
    requires Clean(stack) && forall k: nat :: k < |tokens| ==> IsComponent(tokens[k])
    ensures Clean(Fold(stack, tokens))
    decreases |tokens|
  {
    if tokens != [] {
      assert forall k: nat :: k < |tokens[1..]| ==> tokens[1..][k] == tokens[k + 1];
      FoldClean(Resolve(stack, tokens[0]), tokens[1..]);
    }
  }

  lemma {:induction false} FoldConcat(stack: seq<Name>, a: seq<Name>, b: seq<Name>)
    ensures Fold(stack, a + b) == Fold(Fold(stack, a), b)
    decreases |a|
  {
    if a == [] {
      assert a + b == b;
    } else {
      assert (a + b)[0] == a[0] && (a + b)[1..] == a[1..] + b;
      FoldConcat(Resolve(stack, a[0]), a[1..], b);
    }
  }

  lemma {:induction false} FoldPushes(stack: seq<Name>, tokens: seq<Name>)
    requires Clean(tokens)
    ensures Fold(stack, tokens) == stack + tokens
    decreases |tokens|
  {
    if tokens == [] {
      assert stack + tokens == stack;
    } else {
      assert IsComponent(tokens[0]) && !StartsDot(tokens[0]);
      assert forall k: nat :: k < |tokens[1..]| ==> tokens[1..][k] == tokens[k + 1];
      FoldPushes(stack + [tokens[0]], tokens[1..]);
      assert stack + [tokens[0]] + tokens[1..] == stack + tokens;
    }
  }

  /** Cutting a rendered stack gives the stack back. */
  lemma {:induction false} ComponentsOfRender(stack: seq<Name>)
    requires Clean(stack)
    ensures Components(Render(stack)) == stack
  {
    if stack != [] {
      var init, last := stack[..|stack| - 1], stack[|stack| - 1];
      ComponentsOfRender(init);
      OneComponent(last);
      assert Render(stack) == Render(init) + ([SLASH] + last);
      ComponentsConcat(Render(init), [SLASH] + last);
      assert ([SLASH] + last)[1..] == last;
      assert init + [last] == stack;
    }
  }

  lemma ComponentsOfPath(stack: seq<Name>)
    requires Clean(stack)
    ensures Components(PathOf(stack)) == stack && Paths.Absolute(PathOf(stack))
  {
    ComponentsOfRender(stack);
    if stack != [] { RenderAbsolute(stack); }
    assert [SLASH][1..] == [];
  }

  lemma {:induction false} RenderAbsolute(stack: seq<Name>)
    requires stack != []
    ensures Paths.Absolute(Render(stack))
  {
    if |stack| > 1 { RenderAbsolute(stack[..|stack| - 1]); }
  }

  // ----- what canonical paths are -----

  /** No '/' right after another. */
  predicate SingleSlashes(c: seq<byte>) {
    forall k: nat :: k + 1 < |c| && c[k] == SLASH ==> c[k + 1] != SLASH
  }

  lemma {:induction false} RenderSingle(stack: seq<Name>)
    requires Clean(stack)
    ensures SingleSlashes(Render(stack)) && (stack != [] ==> Render(stack)[|Render(stack)| - 1] != SLASH)
  {
    if stack != [] {
      var init, last := Render(stack[..|stack| - 1]), stack[|stack| - 1];
      RenderSingle(stack[..|stack| - 1]);
      assert IsComponent(last);
      assert forall k: nat :: |init| < k < |Render(stack)| ==> Render(stack)[k] == last[k - |init| - 1];
      assert forall k: nat :: k < |init| ==> Render(stack)[k] == init[k];
    }
  }

  /** The result is "/", or names none of which is empty or starts with a dot,
      each behind one '/', with no '/' at the end. */
  lemma CanonicalShape(cwd: seq<byte>, path: seq<byte>)
    ensures var c, stack := Canonical(cwd, path), Components(Canonical(cwd, path));
      && Clean(stack) && c == PathOf(stack)
      && Paths.Absolute(c) && SingleSlashes(c) && (c[|c| - 1] == SLASH ==> c == [SLASH])
  {
    var tokens := Components(Target(cwd, path));
    ComponentsWellFormed(Target(cwd, path));
    FoldClean([], tokens);
    var stack := Fold([], tokens);
    ComponentsOfPath(stack);
    RenderSingle(stack);
  }

  /** A canonical path is its own canonical path, whatever the directory. */
  lemma Idempotent(cwd: seq<byte>, path: seq<byte>, other: seq<byte>)
    ensures Canonical(other, Canonical(cwd, path)) == Canonical(cwd, path)
  {
    var c := Canonical(cwd, path);
    CanonicalShape(cwd, path);
    ComponentsOfPath(Components(c));
    FoldPushes([], Components(c));
    assert [] + Components(c) == Components(c);
  }

  // ----- the current directory -----

  /** A canonical path ended by one '/'. */
  predicate CwdOk(cwd: seq<byte>) {
    && Clean(Components(cwd))
    && cwd == if Components(cwd) == [] then [SLASH] else Render(Components(cwd)) + [SLASH]
  }

  lemma CwdAbsolute(cwd: seq<byte>)
    requires CwdOk(cwd)
    ensures Paths.Absolute(cwd)
  {
    if Components(cwd) != [] { RenderAbsolute(Components(cwd)); }
  }

  function WithSlash(c: seq<byte>): seq<byte>
    requires c != []
  {
    if c[|c| - 1] != SLASH then c + [SLASH] else c
  }

  lemma CanonicalNotEmpty(cwd: seq<byte>, path: seq<byte>)
    ensures Canonical(cwd, path) != []
  {
    CanonicalShape(cwd, path);
    ComponentsOfPath(Components(Canonical(cwd, path)));
  }

  /** do_cd */
  function NextCwd(s: Store, cwd: seq<byte>, path: seq<byte>): seq<byte> {
    CanonicalNotEmpty(cwd, path);
    var target := WithSlash(Canonical(cwd, path));
    if Paths.InumberOfPath(s, target) == 0 then cwd else target
  }

  lemma AddSlash(c: seq<byte>)
    ensures Components(c + [SLASH]) == Components(c)
  {
    ComponentsConcat(c, [SLASH]);
    assert [SLASH][1..] == [];
  }

  /** A relative path is resolved from the names of the current directory, an
      absolute one from the root. */
  lemma Resolution(cwd: seq<byte>, path: seq<byte>)
    requires CwdOk(cwd)
    ensures Components(Canonical(cwd, path)) ==
      Fold(if Paths.Absolute(path) then [] else Components(cwd), Components(path))
  {
    var tokens := Components(Target(cwd, path));
    ComponentsWellFormed(Target(cwd, path));
    FoldClean([], tokens);
    ComponentsOfPath(Fold([], tokens));
    if !Paths.Absolute(path) {
      assert cwd[|cwd| - 1] == SLASH;
      ComponentsConcat(cwd, path);
      FoldConcat([], Components(cwd), Components(path));
      FoldPushes([], Components(cwd));
      assert [] + Components(cwd) == Components(cwd);
    }
  }

  /** The names after one more token: the last one goes for a token that starts
      with "..", nothing changes for another that starts with ".", and any other
      token is the new last name. */
  predicate Follows(before: seq<Name>, t: Name, after: seq<Name>)
    requires t != []
  {
    if t[0] != DOT then |after| > 0 && after[..|after| - 1] == before && after[|after| - 1] == t
    else if |t| == 1 || t[1] != DOT then after == before
    else if before == [] then after == []
    else |after| == |before| - 1 && after <= before
  }

  lemma FoldOne(stack: seq<Name>, tokens: seq<Name>, t: Name)
    requires IsComponent(t)
    ensures Follows(Fold(stack, tokens), t, Fold(stack, tokens + [t]))
  {
    FoldConcat(stack, tokens, [t]);
    assert [t][1..] == [];
  }

  /** One more token at the end of a path. */
  lemma OneMore(cwd: seq<byte>, path: seq<byte>, t: Name)
    requires CwdOk(cwd) && path != [] && IsComponent(t)
    ensures Follows(Components(Canonical(cwd, path)), t, Components(Canonical(cwd, path + [SLASH] + t)))
  {
    var longer := path + [SLASH] + t;
    Resolution(cwd, path);
    Resolution(cwd, longer);
    OneComponent(t);
    AddSlash(path);
    ComponentsConcat(path + [SLASH], t);
    FoldOne(if Paths.Absolute(path) then [] else Components(cwd), Components(path), t);
  }

  /** One token: from the current directory, or from the root. */
  lemma OneToken(cwd: seq<byte>, t: Name)
    requires CwdOk(cwd) && IsComponent(t)
    ensures Follows(Components(cwd), t, Components(Canonical(cwd, t)))
    ensures Follows([], t, Components(Canonical(cwd, [SLASH] + t)))
  {
    Resolution(cwd, t);
    Resolution(cwd, [SLASH] + t);
    OneComponent(t);
    assert ([SLASH] + t)[1..] == t;
    FoldOne(Components(cwd), [], t);
    FoldOne([], [], t);
    assert [] + [t] == [t];
  }

  /** No token, and one more '/'. */
  lemma NoToken(cwd: seq<byte>, path: seq<byte>)
    requires CwdOk(cwd)
    ensures Canonical(cwd, [SLASH]) == [SLASH] && Components(Canonical(cwd, [])) == Components(cwd)
    ensures path != [] ==> Canonical(cwd, path + [SLASH]) == Canonical(cwd, path)
  {
    Resolution(cwd, []);
    assert [SLASH][1..] == [];
    if path != [] {
      AddSlash(Target(cwd, path));
      assert cwd + (path + [SLASH]) == cwd + path + [SLASH];
    }
  }

  /** do_cd keeps the current directory canonical, and moves to the canonical
      form of its argument exactly when that leads somewhere. */
  lemma CdSpec(s: Store, cwd: seq<byte>, path: seq<byte>)
    requires CwdOk(cwd)
    ensures CwdOk(NextCwd(s, cwd, path))
    ensures Components(NextCwd(s, cwd, path)) ==
      if Paths.InumberOfPath(s, Canonical(cwd, path)) == 0 then Components(cwd) else Components(Canonical(cwd, path))
  {
    var c := Canonical(cwd, path);
    CanonicalShape(cwd, path);
    CanonicalNotEmpty(cwd, path);
    AddSlash(c);
    ComponentsOfPath(Components(c));
  }

  lemma CwdIs(cwd: seq<byte>, other: seq<byte>)
    requires CwdOk(cwd) && CwdOk(other) && Components(cwd) == Components(other)
    ensures cwd == other
  {}

  function AllButLast(names: seq<Name>): seq<Name> {
    if names == [] then [] else names[..|names| - 1]
  }

  const UP: Name := [DOT, DOT]

  lemma UpNames(cwd: seq<byte>)
    requires CwdOk(cwd)
    ensures Components(Canonical(cwd, UP)) == AllButLast(Components(cwd)) && Paths.Absolute(Canonical(cwd, UP))
  {
    hide Canonical, Components, Render;
    assert IsComponent(UP);
    OneToken(cwd, UP);
    CanonicalShape(cwd, UP);
  }

  lemma ParentLeads(s: Store, names: seq<Name>)
    requires Paths.Root(s) != 0 && Paths.Walk(s, Paths.Root(s), names) != 0
    ensures Paths.Walk(s, Paths.Root(s), AllButLast(names)) != 0
  {
    assert Paths.Walk(s, Paths.Root(s), []) == Paths.Root(s);
    hide Paths.Walk;
    if names != [] { Paths.WalkInit(s, Paths.Root(s), names); }
  }

  /** From a directory that is there, ".." always leads to its parent, and from
      the root to the root. */
  lemma CdUp(s: Store, cwd: seq<byte>)
    requires CwdOk(cwd) && Paths.Root(s) != 0 && Paths.InumberOfPath(s, cwd) != 0
    ensures var up := NextCwd(s, cwd, UP); CwdOk(up) && Components(up) == AllButLast(Components(cwd))
  {
    hide Canonical, NextCwd, CwdOk, Components, Paths.Walk, AllButLast;
    CdSpec(s, cwd, UP);
    UpNames(cwd);
    CwdAbsolute(cwd);
    ParentLeads(s, Components(cwd));
  }

  lemma DownNames(cwd: seq<byte>, t: Name)
    requires CwdOk(cwd) && IsComponent(t) && !StartsDot(t)
    ensures Components(Canonical(cwd, t)) == Components(cwd) + [t] == Components(cwd + t)
    ensures Paths.Absolute(Canonical(cwd, t)) && Paths.Absolute(cwd + t)
  {
    CwdAbsolute(cwd);
    assert cwd[|cwd| - 1] == SLASH;
    ComponentsConcat(cwd, t);
    OneComponent(t);
    hide Canonical, Components, Render;
    OneToken(cwd, t);
    CanonicalShape(cwd, t);
  }

  /** Down to an entry that is there, and up again. */
  lemma CdDownUp(s: Store, cwd: seq<byte>, t: Name)
    requires CwdOk(cwd) && Paths.Root(s) != 0 && IsComponent(t) && !StartsDot(t)
    requires Paths.InumberOfPath(s, cwd + t) != 0
    ensures var down := NextCwd(s, cwd, t);
      Components(down) == Components(cwd) + [t] && NextCwd(s, down, UP) == cwd
  {
    hide Canonical, NextCwd, CwdOk, Components, Paths.Walk;
    CdSpec(s, cwd, t);
    DownNames(cwd, t);
    var down := NextCwd(s, cwd, t);
    CwdAbsolute(down);
    CdUp(s, down);
    CwdIs(NextCwd(s, down, UP), cwd);
  }

  /** In every state of a run of do_cd calls, whatever happens to the disk in
      between. */
  predicate AlwaysCwd(cwd: seq<byte>, calls: seq<(Store, seq<byte>)>)
    decreases |calls|
  {
    CwdOk(cwd) && (calls == [] || AlwaysCwd(NextCwd(calls[0].0, cwd, calls[0].1), calls[1..]))
  }

  lemma {:induction false} CwdAlwaysOk(cwd: seq<byte>, calls: seq<(Store, seq<byte>)>)
    requires CwdOk(cwd)
    ensures AlwaysCwd(cwd, calls)
    decreases |calls|
  {
    if calls != [] {
      CdSpec(calls[0].0, cwd, calls[0].1);
      CwdAlwaysOk(NextCwd(calls[0].0, cwd, calls[0].1), calls[1..]);
    }
  }

  /** The first current directory, and the only one without a name. */
  lemma RootOk()
    ensures CwdOk([SLASH])
  {
    assert [SLASH][1..] == [];
  }

  // ----- the buffers -----

  /** The position of the last '/' of the first len bytes. */
  method LastIndex(canonical: array<byte>, len: nat, ghost stack: seq<Name>) returns (i: nat)
    requires len <= canonical.Length && stack != [] && Clean(stack) && canonical[..len] == Render(stack)
    ensures i < len && canonical[..i] == Render(stack[..|stack| - 1])
  {
    ghost var init, last := stack[..|stack| - 1], stack[|stack| - 1];
    ghost var base := |Render(init)|;
    assert forall k: nat :: base < k < len ==> Render(stack)[k] == last[k - base - 1];
    i := len - 1;
    while canonical[i] != SLASH
      invariant base <= i < len
      decreases i
    {
      assert canonical[i] == canonical[..len][i];
      i := i - 1;
    }
    assert canonical[i] == canonical[..len][i];
    assert i == base;
    assert canonical[..i] == canonical[..len][..i];
  }

  /** strcat of a '/' and a name, after len bytes. */
  method Append(canonical: array<byte>, len: nat, token: Name) returns (n: nat)
    requires len + 1 + |token| < canonical.Length
    modifies canonical
    ensures n == len + 1 + |token| && canonical[..n] == old(canonical[..len]) + [SLASH] + token && canonical[n] == 0
  {
    canonical[len] := SLASH;
    n := len + 1;
    var k := 0;
    while k < |token|
      invariant k <= |token| && n == len + 1 + k
      invariant canonical[..n] == old(canonical[..len]) + [SLASH] + token[..k]
    {
      canonical[n] := token[k];
      n, k := n + 1, k + 1;
    }
    canonical[n] := 0;
  }

  /** What one token does to the buffer. */
  method Put(canonical: array<byte>, len: nat, token: Name, ghost stack: seq<Name>) returns (n: nat)
    requires canonical.Length == MAXPROMPT && len + 1 + |token| < MAXPROMPT && Clean(stack)
    requires canonical[..len] == Render(stack) && canonical[len] == 0
    modifies canonical
    ensures n <= len + 1 + |token| && canonical[..n] == Render(Resolve(stack, token)) && canonical[n] == 0
  {
    n := len;
    if |token| >= 2 && token[0] == DOT && token[1] == DOT {
      if len > 0 {
        n := LastIndex(canonical, len, stack);
        canonical[n] := 0;
      }
    } else if |token| >= 1 && token[0] == DOT {
    } else {
      n := Append(canonical, len, token);
      assert (stack + [token])[..|stack|] == stack;
    }
  }

  /** strtok: skip the '/', then take the bytes up to the next one. */
  method NextToken(target: seq<byte>, p: nat) returns (start: nat, end: nat)
    requires p <= |target|
    ensures p <= start <= end <= |target|
    ensures start == |target| ==> Components(target[p..]) == []
    ensures start < |target| ==>
      && start < end && IsComponent(target[start..end])
      && Components(target[p..]) == [target[start..end]] + Components(target[end..])
      && (end < |target| ==> target[end] == SLASH)
      && (target[p] == SLASH ==> p < start)
  {
    start := SkipSlashes(target, p);
    end := TokenEnd(target, start);
  }

  method SkipSlashes(target: seq<byte>, p: nat) returns (start: nat)
    requires p <= |target|
    ensures p <= start <= |target| && (start < |target| ==> target[start] != SLASH)
    ensures Components(target[start..]) == Components(target[p..])
  {
    start := p;
    while start < |target| && target[start] == SLASH
      invariant p <= start <= |target| && Components(target[start..]) == Components(target[p..])
    {
      assert target[start..][1..] == target[start + 1..];
      start := start + 1;
    }
  }

  method TokenEnd(target: seq<byte>, start: nat) returns (end: nat)
    requires start <= |target| && (start < |target| ==> target[start] != SLASH)
    ensures start <= end <= |target| && (end < |target| ==> target[end] == SLASH)
    ensures start < |target| ==>
      && start < end && IsComponent(target[start..end])
      && Components(target[start..]) == [target[start..end]] + Components(target[end..])
    ensures start == |target| ==> Components(target[start..]) == []
  {
    end := start;
    while end < |target| && target[end] != SLASH
      invariant start <= end <= |target| && forall k: nat :: start <= k < end ==> target[k] != SLASH
    {
      end := end + 1;
    }
    ghost var path := target[start..];
    LeadingIs(path, end - start);
    assert path[..end - start] == target[start..end] && path[end - start..] == target[end..];
  }

  lemma LeadingIs(path: seq<byte>, n: nat)
    requires n <= |path| && (forall k: nat :: k < n ==> path[k] != SLASH) && (n < |path| ==> path[n] == SLASH)
    ensures Leading(path) == n
  {
    assert Leading(path) < |path| ==> path[Leading(path)] == SLASH;
  }

  lemma FoldStep(stack: seq<Name>, token: Name, rest: seq<Name>)
    requires Clean(stack) && IsComponent(token)
    ensures Fold(stack, [token] + rest) == Fold(Resolve(stack, token), rest) && Clean(Resolve(stack, token))
  {
    assert ([token] + rest)[1..] == rest;
  }

  lemma FoldEnd(stack: seq<Name>)
    ensures Fold(stack, []) == stack && Clean([])
  {}

  lemma RenderEmpty(stack: seq<Name>)
    ensures Render(stack) == [] <==> stack == []
  {}

  /** Build the canonical path in place, one token at a time. */
  method CanonicalPath(canonical: array<byte>, cwd: seq<byte>, path: seq<byte>) returns (len: nat)
    requires canonical.Length == MAXPROMPT && Paths.Absolute(cwd) && |Target(cwd, path)| < MAXPROMPT
    modifies canonical
    ensures len < MAXPROMPT && canonical[..len] == Canonical(cwd, path) && canonical[len] == 0
    ensures len <= |Target(cwd, path)|
  {
    var target := if path == [] || path[0] != SLASH then cwd + path else path;
    canonical[0], len := 0, 0;
    var p := 0;
    ghost var stack: seq<Name> := [];
    assert target[0..] == target;
    hide Render, Resolve, Components, Fold, Clean, IsComponent;
    RenderEmpty(stack);
    FoldEnd(stack);
    while true
      invariant len <= p <= |target| && (p < |target| ==> target[p] == SLASH)
      invariant Clean(stack) && canonical[..len] == Render(stack) && canonical[len] == 0
      invariant Fold(stack, Components(target[p..])) == Fold([], Components(target))
      decreases |target| - p
    {
      var start, end := NextToken(target, p);
      if start == |target| { break; }
      var token, rest := target[start..end], Components(target[end..]);
      FoldStep(stack, token, rest);
      len := Put(canonical, len, token, stack);
      stack := Resolve(stack, token);
      p := end;
    }
    RenderEmpty(stack);
    FoldEnd(stack);
    if len == 0 {
      canonical[0], canonical[1], len := SLASH, 0, 1;
    }
  }

  /** The canonical path, with a '/' at the end. */
  method CdTarget(cwd: seq<byte>, path: seq<byte>) returns (target: seq<byte>)
    requires CwdOk(cwd) && |Target(cwd, path)| + 1 < MAXPROMPT
    ensures Canonical(cwd, path) != [] && target == WithSlash(Canonical(cwd, path)) && |target| < MAXPROMPT
  {
    hide Canonical, CwdOk, Target;
    CwdAbsolute(cwd);
    CanonicalNotEmpty(cwd, path);
    var buf := new byte[MAXPROMPT](_ => 0);
    var len := CanonicalPath(buf, cwd, path);
    assert buf[..len][len - 1] == buf[len - 1];
    if buf[len - 1] != SLASH {
      buf[len] := SLASH;
      len := len + 1;
    }
    target := buf[..len];
  }

  /** The shell and its current directory. */
  class Shell {
    var cwd: seq<byte>

    constructor ()
      ensures CwdOk(cwd) && cwd == [SLASH]
    {
      cwd := [SLASH];
      new;
      RootOk();
    }

    /** cd: the room of the buffers is for the '/' at the end too. */
    method Cd(v: Volume, path: seq<byte>)
      requires CwdOk(cwd) && Paths.Walkable(v.St()) && |Target(cwd, path)| + 1 < MAXPROMPT
      modifies this, v, v.disk
      ensures v.St() == old(v.St()) && cwd == NextCwd(v.St(), old(cwd), path) && CwdOk(cwd)
    {
      hide Paths.Walkable, Canonical, Paths.InumberOfPath, CwdOk, Target;
      CdSpec(v.St(), cwd, path);
      CanonicalNotEmpty(cwd, path);
      var target := CdTarget(cwd, path);
      var inumber := DirFile.InumberOfPath(v, target);
      if inumber != 0 { cwd := target; }
    }
  }
}
