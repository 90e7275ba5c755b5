/** The chugin directory scan: which directory entries are loaded as chugins. */
module Chugins {
  import opened Wrappers
  import opened Text

  const ChuginSuffix: string := ".chug"

  /** A directory entry is a chugin when its name is longer than `.chug` and ends with it. */
  function IsChugin(name: string): (r: bool)
    ensures r <==> exists stem :: |stem| > 0 && name == stem + ChuginSuffix
  {
    var r := |name| > |ChuginSuffix| && EndsWith(name, ChuginSuffix);
    assert r ==> name == name[..|name| - |ChuginSuffix|] + ChuginSuffix;
    assert (exists stem :: |stem| > 0 && name == stem + ChuginSuffix) ==> r by {
      if exists stem :: |stem| > 0 && name == stem + ChuginSuffix {
        var stem :| |stem| > 0 && name == stem + ChuginSuffix;
        assert name[|name| - |ChuginSuffix|..] == ChuginSuffix;
      }
    }
    r
  }

  /** The path a chugin entry is loaded from. */
  function ChuginPath(dir: string, name: string): string {
    dir + "/" + name
  }

  /** The paths of the chugin entries, in directory order. */
  function ChuginPaths(dir: string, names: seq<string>): (paths: seq<string>)
    ensures |paths| <= |names|
    ensures forall p :: p in paths ==>
      exists name :: name in names && IsChugin(name) && p == ChuginPath(dir, name)
    ensures forall name :: name in names && IsChugin(name) ==> ChuginPath(dir, name) in paths
  {
    if |names| == 0 then []
    else
      var init := names[..|names| - 1];
      var last := names[|names| - 1];
      assert forall name :: name in names ==> name in init || name == last;
      assert forall name :: name in init ==> name in names;
      ChuginPaths(dir, init) + (if IsChugin(last) then [ChuginPath(dir, last)] else [])
  }

  /** The scan keeps entry order: the paths of two runs of entries are the two lists joined. */
  lemma {:induction false} ChuginPathsAppend(dir: string, a: seq<string>, b: seq<string>)
    ensures ChuginPaths(dir, a + b) == ChuginPaths(dir, a) + ChuginPaths(dir, b)
    decreases |b|
  {
    if |b| == 0 {
      assert a + b == a;
    } else {
      var init := b[..|b| - 1];
      assert (a + b)[..|a + b| - 1] == a + init;
      assert (a + b)[|a + b| - 1] == b[|b| - 1];
      ChuginPathsAppend(dir, a, init);
    }
  }

  /** The bare name `.chug` is not a chugin; `x.chug` is. */
  lemma SuffixAloneIsNotChugin()
    ensures !IsChugin(ChuginSuffix)
    ensures IsChugin("x" + ChuginSuffix)
  {
    assert ("x" + ChuginSuffix)[1..] == ChuginSuffix;
  }

  /**
   `loadAllChugins`: reads the entries of `dir` (`None` when it cannot be
   opened) and returns the list handed to the engine, if any: only a
   non-empty list of chugin paths is set.
   */
  method LoadAllChugins(dir: string, entries: Option<seq<string>>) returns (param: Option<seq<string>>)
    ensures entries.None? ==> param.None?
    ensures entries.Some? ==> (param.Some? <==> exists name :: name in entries.value && IsChugin(name))
    ensures param.Some? ==> entries.Some? && param.value == ChuginPaths(dir, entries.value)
  {
    if entries.None? {
      return None;
    }
    var names := entries.value;
    var paths: seq<string> := [];
    var i := 0;
    while i < |names|
      invariant 0 <= i <= |names|
      invariant paths == ChuginPaths(dir, names[..i])
    {
      assert names[..i + 1][..i] == names[..i];
      if IsChugin(names[i]) {
        paths := paths + [ChuginPath(dir, names[i])];
      }
      i := i + 1;
    }
    assert names[..i] == names;
    if paths != [] {
      assert paths[0] in paths;
      param := Some(paths);
    } else {
      param := None;
    }
  }
}
