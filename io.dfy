/** Shared file-system helpers (src/utils/io.py): the data directory layout, the
    loop that creates it on import, and the file-name sanitiser. */
module Io {
  import Text

  /** A path as its sequence of components below the file-system root. */
  type Path = seq<string>

  /** DATA = ROOT / "data", and the five artifact directories below it. */
  function Data(root: Path): Path { root + ["data"] }
  function Raw(root: Path): Path { Data(root) + ["raw"] }
  function Normalized(root: Path): Path { Data(root) + ["normalized"] }
  function FeaturesDir(root: Path): Path { Data(root) + ["features"] }
  function Models(root: Path): Path { Data(root) + ["models"] }
  function Predictions(root: Path): Path { Data(root) + ["predictions"] }

  /** The directories created on import, in the order of the loop. */
  function Layout(root: Path): (dirs: seq<Path>)
    ensures |dirs| == 6
  {
    [Data(root), Raw(root), Normalized(root), FeaturesDir(root), Models(root), Predictions(root)]
  }

  /** RAW, NORMALIZED, FEATURES, MODELS and PREDICTIONS are direct children of
      DATA, and no two of the six directories coincide. */
  lemma LayoutFacts(root: Path)
    ensures forall k | 1 <= k < 6 :: |Layout(root)[k]| == |Data(root)| + 1 && Layout(root)[k][..|Data(root)|] == Data(root)
    ensures forall i, j | 0 <= i < j < 6 :: Layout(root)[i] != Layout(root)[j]
  {
    var dirs := Layout(root);
    forall k | 1 <= k < 6 ensures |dirs[k]| == |Data(root)| + 1 && dirs[k][..|Data(root)|] == Data(root) {
    }
    forall i, j | 0 <= i < j < 6 ensures dirs[i] != dirs[j] {
      if i > 0 {
        assert dirs[i][|Data(root)|] != dirs[j][|Data(root)|];
      } else {
        assert |dirs[i]| != |dirs[j]|;
      }
    }
  }

  /** Every non-empty prefix of a path: what `mkdir(parents=True)` makes exist. */
  function Ancestry(p: Path): (s: set<Path>)
    ensures forall q :: q in s <==> exists n | 1 <= n <= |p| :: q == p[..n]
  {
    set n | 1 <= n <= |p| :: p[..n]
  }

  class FileSystem {
    /** The directories that exist. */
    var dirs: set<Path>

    constructor(existing: set<Path>)
      ensures dirs == existing
    {
      dirs := existing;
    }

    /** `p.mkdir(parents=True, exist_ok=True)`: the directory and its missing
        parents now exist, and an existing one is no error. */
    method MakeDirs(p: Path)
      modifies this
      ensures dirs == old(dirs) + Ancestry(p)
    {
      dirs := dirs + Ancestry(p);
    }

    /** The module-level loop: afterwards every layout directory exists together
        with its parents, and nothing else was created. */
    method CreateLayout(root: Path)
      modifies this
      ensures forall k | 0 <= k < 6 :: Layout(root)[k] in dirs
      ensures forall k | 0 <= k < 6 :: Ancestry(Layout(root)[k]) <= dirs
      ensures dirs == old(dirs) + Ancestry(Data(root)) + Ancestry(Raw(root)) + Ancestry(Normalized(root))
        + Ancestry(FeaturesDir(root)) + Ancestry(Models(root)) + Ancestry(Predictions(root))
    {
      var layout := Layout(root);
      for k := 0 to |layout|
        invariant dirs == old(dirs) + Made(layout, k)
      {
        MakeDirs(layout[k]);
      }
      assert Made(layout, 1) == Ancestry(Data(root));
      assert Made(layout, 2) == Made(layout, 1) + Ancestry(Raw(root));
      assert Made(layout, 3) == Made(layout, 2) + Ancestry(Normalized(root));
      assert Made(layout, 4) == Made(layout, 3) + Ancestry(FeaturesDir(root));
      assert Made(layout, 5) == Made(layout, 4) + Ancestry(Models(root));
      assert Made(layout, 6) == Made(layout, 5) + Ancestry(Predictions(root));
      forall k | 0 <= k < 6 ensures Layout(root)[k] in dirs {
        assert layout[k] == layout[k][..|layout[k]|];
        MadeIncludes(layout, 6, k);
      }
      forall k | 0 <= k < 6 ensures Ancestry(Layout(root)[k]) <= dirs {
        MadeIncludes(layout, 6, k);
      }
    }
  }

  /** The directories the first k iterations of the loop create. */
  function Made(paths: seq<Path>, k: nat): set<Path>
    requires k <= |paths|
  {
    if k == 0 then {} else Made(paths, k - 1) + Ancestry(paths[k - 1])
  }

  lemma {:induction false} MadeIncludes(paths: seq<Path>, k: nat, i: nat)
    requires i < k <= |paths|
    ensures Ancestry(paths[i]) <= Made(paths, k)
  {
    if i < k - 1 {
      MadeIncludes(paths, k - 1, i);
    }
  }

  /** The characters `safe_stem` keeps: alphanumerics, '-' and '_'. */
  predicate Kept(c: char)
  {
    Text.IsAsciiAlnum(c) || c == '-' || c == '_'
  }

  /** `safe_stem(name)`: every character that is not kept becomes '_'. */
  function SafeStem(name: string): (r: string)
    ensures |r| == |name|
    ensures forall i | 0 <= i < |r| :: Kept(r[i])
    ensures forall i | 0 <= i < |name| :: Kept(name[i]) ==> r[i] == name[i]
    ensures forall i | 0 <= i < |name| :: !Kept(name[i]) ==> r[i] == '_'
  {
    seq(|name|, i requires 0 <= i < |name| => if Kept(name[i]) then name[i] else '_')
  }

  /** Sanitising twice is sanitising once, and a name of kept characters only is
      its own stem. */
  lemma SafeStemIdempotent(name: string)
    ensures SafeStem(SafeStem(name)) == SafeStem(name)
    ensures SafeStem(name) == name <==> forall i | 0 <= i < |name| :: Kept(name[i])
  {
    var r := SafeStem(name);
    assert forall i | 0 <= i < |r| :: Kept(r[i]);
    if SafeStem(name) == name {
      forall i | 0 <= i < |name| ensures Kept(name[i]) {
        assert Kept(r[i]);
      }
    }
  }
}
