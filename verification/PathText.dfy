/** Path strings cut at '/' (src/dir.c, src/commons.c). */
module PathText {
  import opened Disk

  const SLASH: byte := 47

  type Name = seq<byte>

  /** The length of the leading component: up to the first '/'. */
  function Leading(path: seq<byte>): (r: nat)
    ensures r <= |path|
    ensures forall k: nat :: k < r ==> path[k] != SLASH
    ensures r < |path| ==> path[r] == SLASH
  {
    if path == [] || path[0] == SLASH then 0 else 1 + Leading(path[1..])
  }

  /** The non-empty components of a path. */
  function Components(path: seq<byte>): seq<Name>
    decreases |path|
  {
    if path == [] then []
    else if path[0] == SLASH then Components(path[1..])
    else [path[..Leading(path)]] + Components(path[Leading(path)..])
  }

  predicate SlashFree(name: seq<byte>) {
    forall k: nat :: k < |name| ==> name[k] != SLASH
  }

  /** A component: not empty, without '/'. */
  predicate IsComponent(name: seq<byte>) {
    name != [] && SlashFree(name)
  }

  lemma {:induction false} ComponentsWellFormed(path: seq<byte>)
    ensures forall k: nat :: k < |Components(path)| ==> IsComponent(Components(path)[k])
    decreases |path|
  {
    if path != [] {
      if path[0] == SLASH { ComponentsWellFormed(path[1..]); } else { ComponentsWellFormed(path[Leading(path)..]); }
    }
  }

  lemma {:induction false} LeadingConcat(a: seq<byte>, b: seq<byte>)
    requires b == [] || b[0] == SLASH || Leading(a) < |a|
    ensures Leading(a + b) == Leading(a)
  {
    if a == [] {
      assert a + b == b;
    } else if a[0] != SLASH {
      assert (a + b)[1..] == a[1..] + b;
      LeadingConcat(a[1..], b);
    }
  }

  /** Cutting at a '/' cuts the list of components. */
  lemma {:induction false} ComponentsConcat(a: seq<byte>, b: seq<byte>)
    requires a == [] || b == [] || a[|a| - 1] == SLASH || b[0] == SLASH
    ensures Components(a + b) == Components(a) + Components(b)
    decreases |a|
  {
    hide Leading;
    if a == [] {
      assert a + b == b;
    } else if b == [] {
      assert a + b == a;
    } else if a[0] == SLASH {
      assert (a + b)[1..] == a[1..] + b;
      ComponentsConcat(a[1..], b);
    } else {
      LeadingConcat(a, b);
      var n := Leading(a);
      assert (a + b)[..n] == a[..n] && (a + b)[n..] == a[n..] + b;
      ComponentsConcat(a[n..], b);
      assert Components(a + b) == [a[..n]] + (Components(a[n..]) + Components(b));
    }
  }

  lemma OneComponent(name: seq<byte>)
    requires IsComponent(name)
    ensures Components(name) == [name]
  {
    assert Leading(name) == |name|;
    assert name[..|name|] == name && name[|name|..] == [];
  }

  /** The position of the last '/'. */
  function LastSlash(path: seq<byte>): (r: nat)
    requires path != [] && path[0] == SLASH
    ensures r < |path| && path[r] == SLASH && SlashFree(path[r + 1..])
    decreases |path|
  {
    var n := |path| - 1;
    if path[n] == SLASH then n
    else
      var r := LastSlash(path[..n]);
      assert path[r + 1..] == path[..n][r + 1..] + [path[n]];
      r
  }

  /** Everything up to the last '/', and what follows it. */
  function Dirname(path: seq<byte>): seq<byte>
    requires path != [] && path[0] == SLASH
  {
    path[..LastSlash(path) + 1]
  }

  function Basename(path: seq<byte>): seq<byte>
    requires path != [] && path[0] == SLASH
  {
    path[LastSlash(path) + 1..]
  }

  lemma SplitPath(path: seq<byte>)
    requires path != [] && path[0] == SLASH
    ensures Components(path) == Components(Dirname(path)) + if Basename(path) == [] then [] else [Basename(path)]
    ensures Dirname(path) != [] && Dirname(path)[0] == SLASH && SlashFree(Basename(path))
  {
    assert path == Dirname(path) + Basename(path);
    ComponentsConcat(Dirname(path), Basename(path));
    if Basename(path) != [] { OneComponent(Basename(path)); }
  }
}
