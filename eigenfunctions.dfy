/** The texture post-processing of `RandomEigenfunctionGenerator`: the element
 *  colour table, the threshold that turns the interpolated eigenfunction
 *  combination into a pattern, the colourisation, the left-half mirroring, the
 *  validity of the randomly drawn parameters with the record returned for
 *  them, and the registry of complete eigenfunction file sets.  The numerical
 *  work (loading the arrays, summing and normalising the combination, the
 *  cubic interpolation on the triangulation and the grid extents) is abstract:
 *  a `Dataset` supplies its outcome for a base name and a draw. */
module Eigenfunctions {
  import opened Wrappers
  import opened Text
  import opened Pixels

  // ---------------------------------------------------------------------------
  // Colours

  /** `self.element_colors` */
  const ElementColors: map<string, Rgba> := map[
    "blood" := Rgba(255, 0, 0, 255),
    "sol" := Rgba(249, 164, 16, 255),
    "anima" := Rgba(135, 105, 233, 255),
    "dark" := Rgba(0, 0, 0, 255),
    "light" := Rgba(255, 255, 255, 255),
    "all" := Rgba(255, 255, 255, 255)]

  /** `self.background_color`: transparent near-black. */
  const Background := Rgba(12, 12, 12, 0)

  function UnknownElementError(element: string): string
  {
    "ValueError: Unknown element: " + element
      + ". Valid elements are: ['blood', 'sol', 'anima', 'dark', 'light', 'all']"
  }

  /** Every element colour is opaque, so none is the background. */
  lemma ElementColoursOpaque(element: string)
    requires element in ElementColors
    ensures ElementColors[element].a == 255 && ElementColors[element] != Background
  {
  }

  // ---------------------------------------------------------------------------
  // Pattern threshold and colourisation

  /** One cell of `pattern`: false outside the domain, and inside it
   *  `abs(Z) - 0.15 <= 0`. */
  predicate PatternCell(inDomain: bool, z: real)
  {
    inDomain && (if z < 0.0 then -z else z) - 0.15 <= 0.0
  }

  /** The threshold as a band: a cell is in the pattern exactly when it lies in
   *  the domain and its value lies in [-0.15, 0.15]. */
  lemma PatternBand(inDomain: bool, z: real)
    ensures PatternCell(inDomain, z) <==> inDomain && -0.15 <= z <= 0.15
    ensures !inDomain ==> !PatternCell(inDomain, z)
  {
  }

  /** The colour `_apply_colors` leaves in a cell: the element colour, then
   *  the background where the pattern is set, then the background outside the
   *  domain. */
  function CellColour(inPattern: bool, inDomain: bool, colour: Rgba): Rgba
  {
    if !inDomain then Background else if inPattern then Background else colour
  }

  /** What the colourisation means for the thresholded field: a cell shows the
   *  element colour exactly when it lies in the domain and the field there is
   *  outside [-0.15, 0.15]; every other cell is the transparent background. */
  lemma ColourOfField(inDomain: bool, z: real, element: string)
    requires element in ElementColors
    ensures CellColour(PatternCell(inDomain, z), inDomain, ElementColors[element]) == ElementColors[element]
        <==> inDomain && (z < -0.15 || z > 0.15)
    ensures CellColour(PatternCell(inDomain, z), inDomain, ElementColors[element]) in {ElementColors[element], Background}
  {
    ElementColoursOpaque(element);
    PatternBand(inDomain, z);
  }

  /** `image[mask] = colour` for a boolean mask of the image's shape. */
  method FillMask(image: array2<Rgba>, mask: array2<bool>, colour: Rgba)
    requires mask.Length0 == image.Length0 && mask.Length1 == image.Length1
    modifies image
    ensures forall y, x :: 0 <= y < image.Length0 && 0 <= x < image.Length1 ==>
      image[y, x] == if mask[y, x] then colour else old(image[y, x])
  {
    var y := 0;
    while y < image.Length0
      invariant 0 <= y <= image.Length0
      invariant forall i, j :: 0 <= i < y && 0 <= j < image.Length1 ==>
        image[i, j] == if mask[i, j] then colour else old(image[i, j])
      invariant forall i, j :: y <= i < image.Length0 && 0 <= j < image.Length1 ==>
        image[i, j] == old(image[i, j])
    {
      var x := 0;
      while x < image.Length1
        invariant 0 <= x <= image.Length1
        invariant forall i, j :: 0 <= i < y && 0 <= j < image.Length1 ==>
          image[i, j] == if mask[i, j] then colour else old(image[i, j])
        invariant forall j :: 0 <= j < x ==>
          image[y, j] == if mask[y, j] then colour else old(image[y, j])
        invariant forall i, j :: (y < i < image.Length0 && 0 <= j < image.Length1) || (i == y && x <= j < image.Length1) ==>
          image[i, j] == old(image[i, j])
      {
        if mask[y, x] {
          image[y, x] := colour;
        }
        x := x + 1;
      }
      y := y + 1;
    }
  }

  /** `_apply_colors(pattern, domain_mask, element, width, height)`: an unknown
   *  element raises ValueError; otherwise a fresh height x width image filled
   *  with the element colour, in which the pattern cells and then the cells
   *  outside the domain are overwritten with the background. */
  method ApplyColors(pattern: array2<bool>, domain: array2<bool>, element: string, width: nat, height: nat)
    returns (r: Result<array2<Rgba>>)
    requires pattern.Length0 == height && pattern.Length1 == width
    requires domain.Length0 == height && domain.Length1 == width
    ensures r.Err? <==> element !in ElementColors
    ensures r.Err? ==> r.error == UnknownElementError(element)
    ensures r.Ok? ==> fresh(r.value) && r.value.Length0 == height && r.value.Length1 == width
    ensures r.Ok? ==> forall y, x :: 0 <= y < height && 0 <= x < width ==>
      r.value[y, x] == CellColour(pattern[y, x], domain[y, x], ElementColors[element])
  {
    if element !in ElementColors {
      return Err(UnknownElementError(element));
    }
    var elementColor := ElementColors[element];
    var image := new Rgba[height, width]((y, x) => elementColor);
    FillMask(image, pattern, Background);
    var outside := new bool[height, width]((y, x) reads domain =>
      if 0 <= y < domain.Length0 && 0 <= x < domain.Length1 then !domain[y, x] else false);
    FillMask(image, outside, Background);
    r := Ok(image);
  }

  // ---------------------------------------------------------------------------
  // Mirroring

  function Reverse<T>(s: seq<T>): (r: seq<T>)
    ensures |r| == |s|
    ensures forall i :: 0 <= i < |s| ==> r[i] == s[|s| - 1 - i]
  {
    if s == [] then [] else Reverse(s[1..]) + [s[0]]
  }

  /** One row of `create_symmetric_image`: its first `w // 2` cells followed by
   *  the same cells in reverse order. */
  function MirrorRow<T>(row: seq<T>, w: nat): seq<T>
    requires |row| == w
  {
    row[..w / 2] + Reverse(row[..w / 2])
  }

  /** `create_symmetric_image` on an image of `w` columns: the same number of
   *  rows, each of width 2·(w // 2) (an odd width loses its middle-right
   *  column), symmetric about the vertical centre line and agreeing with the
   *  input on the left half. */
  function Mirror<T>(rows: seq<seq<T>>, w: nat): (out: seq<seq<T>>)
    requires forall y :: 0 <= y < |rows| ==> |rows[y]| == w
    ensures |out| == |rows|
    ensures forall y :: 0 <= y < |out| ==> |out[y]| == 2 * (w / 2)
    ensures forall y, x :: 0 <= y < |out| && 0 <= x < 2 * (w / 2) ==> out[y][x] == out[y][2 * (w / 2) - 1 - x]
    ensures forall y, x :: 0 <= y < |out| && 0 <= x < w / 2 ==> out[y][x] == rows[y][x]
  {
    seq(|rows|, y requires 0 <= y < |rows| => MirrorRow(rows[y], w))
  }

  /** Mirroring an already symmetric image changes nothing. */
  lemma MirrorIdempotent<T>(rows: seq<seq<T>>, w: nat)
    requires forall y :: 0 <= y < |rows| ==> |rows[y]| == w
    ensures Mirror(Mirror(rows, w), 2 * (w / 2)) == Mirror(rows, w)
  {
    var once := Mirror(rows, w);
    var twice := Mirror(once, 2 * (w / 2));
    forall y | 0 <= y < |rows|
      ensures twice[y] == once[y]
    {
      assert |twice[y]| == |once[y]|;
      forall x | 0 <= x < |once[y]|
        ensures twice[y][x] == once[y][x]
      {
        if x >= w / 2 {
          assert twice[y][x] == twice[y][2 * (w / 2) - 1 - x];
          assert once[y][x] == once[y][2 * (w / 2) - 1 - x];
        }
      }
    }
  }

  /** The rows of a 2-D image. */
  function RowsOf(image: array2<Rgba>): (rows: seq<seq<Rgba>>)
    reads image
    ensures |rows| == image.Length0
    ensures forall y :: 0 <= y < |rows| ==> |rows[y]| == image.Length1
    ensures forall y, x :: 0 <= y < image.Length0 && 0 <= x < image.Length1 ==> rows[y][x] == image[y, x]
  {
    seq(image.Length0, y requires 0 <= y < image.Length0 reads image =>
      seq(image.Length1, x requires 0 <= x < image.Length1 reads image => image[y, x]))
  }

  // ---------------------------------------------------------------------------
  // Parameter draw

  /** The drawn combination: `indices` and `amplitudes`, of length `n_funcs`. */
  datatype Draw = Draw(indices: seq<int>, amplitudes: seq<real>)

  /** What `np.random.randint(2, 5)`, `np.random.choice(len(eigenvalues) // 2,
   *  n_funcs, replace=False)` and `np.random.uniform(-1, 1, n_funcs)` produce
   *  for a set of `numEigenvalues` eigenvalues. */
  predicate ValidDraw(d: Draw, numEigenvalues: nat)
  {
    && 2 <= |d.indices| <= 4
    && |d.amplitudes| == |d.indices|
    && Distinct(d.indices)
    && (forall i :: 0 <= i < |d.indices| ==> 0 <= d.indices[i] < numEigenvalues / 2)
    && (forall i :: 0 <= i < |d.amplitudes| ==> -1.0 <= d.amplitudes[i] < 1.0)
  }

  /** A sample without replacement larger than its population. */
  const SampleError := "ValueError"

  /** The random draw, as a nondeterministic choice: the number of functions is
   *  any of 2, 3, 4; sampling that many distinct indices below half the number
   *  of eigenvalues fails when there are fewer; any amplitudes in [-1, 1). */
  method DrawParameters(numEigenvalues: nat) returns (r: Result<Draw>)
    ensures r.Ok? ==> ValidDraw(r.value, numEigenvalues)
    ensures r.Err? ==> r.error == SampleError
    ensures numEigenvalues / 2 >= 4 ==> r.Ok?
    ensures numEigenvalues / 2 < 2 ==> r.Err?
  {
    var nFuncs :| 2 <= nFuncs <= 4;
    var population := numEigenvalues / 2;
    if nFuncs > population {
      return Err(SampleError);
    }
    var first := seq(nFuncs, i => i);
    var zeros := seq(nFuncs, i => 0.0);
    assert ValidDraw(Draw(first, zeros), numEigenvalues);
    var d: Draw :| |d.indices| == nFuncs && ValidDraw(d, numEigenvalues);
    r := Ok(d);
  }

  // ---------------------------------------------------------------------------
  // generate_random_image

  /** The numerical outcome for a base name: its number of eigenvalues, the
   *  interpolation grid size, whether a grid cell lies in the domain, and the
   *  interpolated normalised combination of a draw at a grid cell. */
  datatype Dataset = Dataset(numEigenvalues: string -> nat, gridWidth: string -> nat, gridHeight: string -> nat,
                             inDomain: (string, int, int) -> bool, field: (string, Draw, int, int) -> real)

  /** The texture, before mirroring, of base `b` under draw `d` in `colour`. */
  function Texture(ds: Dataset, b: string, d: Draw, colour: Rgba): (rows: seq<seq<Rgba>>)
    ensures |rows| == ds.gridHeight(b)
    ensures forall y :: 0 <= y < |rows| ==> |rows[y]| == ds.gridWidth(b)
  {
    seq(ds.gridHeight(b), y =>
      seq(ds.gridWidth(b), x =>
        CellColour(PatternCell(ds.inDomain(b, y, x), ds.field(b, d, y, x)), ds.inDomain(b, y, x), colour)))
  }

  /** The returned `generation_params`. */
  datatype GenerationParams = GenerationParams(baseFile: string, element: string, indices: seq<int>,
                                               amplitudes: seq<real>, timestamp: string)

  datatype Generated = Generated(params: GenerationParams, path: string, image: seq<seq<Rgba>>)

  /** The default output path. */
  function OutputPath(outputPath: Option<string>, baseFile: string, element: string, stamp: string): string
  {
    if outputPath.Some? then outputPath.value
    else "combinations/" + baseFile + "_" + element + "_combo_" + stamp + ".png"
  }

  /** `generate_random_image(element, output_path)`: pick a registered base,
   *  draw the parameters, threshold and colourise the field, mirror it, and
   *  return the parameters with the path.  The two clock readings are
   *  parameters; saving the image is left out. */
  method GenerateRandomImage(registry: seq<string>, ds: Dataset, element: string, outputPath: Option<string>,
                             fileStamp: string, recordStamp: string)
    returns (r: Result<Generated>)
    requires registry != []
    ensures r.Ok? ==>
      var p := r.value.params;
      && p.baseFile in registry && p.element == element && p.timestamp == recordStamp
      && element in ElementColors
      && ValidDraw(Draw(p.indices, p.amplitudes), ds.numEigenvalues(p.baseFile))
      && r.value.image == Mirror(Texture(ds, p.baseFile, Draw(p.indices, p.amplitudes), ElementColors[element]),
                                 ds.gridWidth(p.baseFile))
      && r.value.path == OutputPath(outputPath, p.baseFile, element, fileStamp)
    ensures r.Err? ==> r.error == SampleError || r.error == UnknownElementError(element)
    ensures element !in ElementColors ==> r.Err?
    ensures element in ElementColors && (forall b :: b in registry ==> ds.numEigenvalues(b) / 2 >= 4) ==> r.Ok?
  {
    assert registry[0] in registry;
    var baseFile :| baseFile in registry;
    var drawn := DrawParameters(ds.numEigenvalues(baseFile));
    if drawn.Err? {
      return Err(drawn.error);
    }
    var d := drawn.value;
    var width, height := ds.gridWidth(baseFile), ds.gridHeight(baseFile);
    var pattern := new bool[height, width]((y, x) => PatternCell(ds.inDomain(baseFile, y, x), ds.field(baseFile, d, y, x)));
    var domain := new bool[height, width]((y, x) => ds.inDomain(baseFile, y, x));
    var coloured := ApplyColors(pattern, domain, element, width, height);
    if coloured.Err? {
      return Err(coloured.error);
    }
    var texture := RowsOf(coloured.value);
    ghost var spec := Texture(ds, baseFile, d, ElementColors[element]);
    forall y | 0 <= y < height
      ensures texture[y] == spec[y]
    {
      forall x | 0 <= x < width
        ensures texture[y][x] == spec[y][x]
      {
        assert texture[y][x] == coloured.value[y, x];
      }
    }
    assert texture == spec;
    var image := Mirror(texture, width);
    var path := OutputPath(outputPath, baseFile, element, fileStamp);
    r := Ok(Generated(GenerationParams(baseFile, element, d.indices, d.amplitudes, recordStamp), path, image));
  }

  // ---------------------------------------------------------------------------
  // Registry of eigenfunction sets

  const FunctionsSuffix := "_eigenfunctions.npy"
  const ValuesSuffix := "_eigenvalues.npy"
  const SolverSuffix := "_solver_data.npz"

  predicate EndsWith(s: string, suffix: string)
  {
    |suffix| <= |s| && s[|s| - |suffix|..] == suffix
  }

  /** Python's `s.replace(pattern, repl)`: every non-overlapping occurrence, from
   *  left to right. */
  function ReplaceAll(s: string, pattern: string, repl: string): string
    requires pattern != []
    decreases |s|
  {
    if |s| < |pattern| then s
    else if s[..|pattern|] == pattern then repl + ReplaceAll(s[|pattern|..], pattern, repl)
    else [s[0]] + ReplaceAll(s[1..], pattern, repl)
  }

  /** The base name `file.replace("_eigenfunctions.npy", "")` as written. */
  function BaseAsWritten(file: string): string
  {
    ReplaceAll(file, FunctionsSuffix, "")
  }

  /** The base name with only the trailing suffix removed. */
  function BaseName(file: string): (b: string)
    requires EndsWith(file, FunctionsSuffix)
    ensures b + FunctionsSuffix == file
  {
    file[..|file| - |FunctionsSuffix|]
  }

  /** The `__init__` loop as written, over the directory listing `files`,
   *  existence being membership in the listing. */
  function RegistryAsWritten(files: seq<string>, listing: seq<string>): seq<string>
  {
    if files == [] then []
    else
      var file := files[|files| - 1];
      RegistryAsWritten(files[..|files| - 1], listing)
        + (if EndsWith(file, FunctionsSuffix)
              && BaseAsWritten(file) + ValuesSuffix in listing && BaseAsWritten(file) + SolverSuffix in listing
           then [BaseAsWritten(file)] else [])
  }

  /** A leading occurrence of the pattern is removed by `replace(pattern, "")`. */
  lemma ReplaceLeading(p: string, rest: string)
    requires p != []
    ensures ReplaceAll(p + rest, p, "") == ReplaceAll(rest, p, "")
  {
    assert (p + rest)[..|p|] == p;
    assert (p + rest)[|p|..] == rest;
  }

  lemma BaseOfDoubledSuffix()
    ensures BaseAsWritten("x" + FunctionsSuffix + FunctionsSuffix) == "x"
  {
    var s := FunctionsSuffix;
    var f := "x" + s + s;
    assert f[..|s|] != s by { assert f[0] == 'x' && s[0] == '_'; }
    assert f[1..] == s + s;
    ReplaceLeading(s, s);
    ReplaceLeading(s, []);
    assert s + [] == s;
  }

  /** As written, a listed name in which the suffix also occurs earlier yields
   *  a base whose own eigenfunctions file does not exist: "x" is registered
   *  from "x_eigenfunctions.npy_eigenfunctions.npy", and loading it later
   *  opens the missing "x_eigenfunctions.npy". */
  lemma RegistryAsWrittenAdmitsMissingFile()
    ensures var listing := ["x" + FunctionsSuffix + FunctionsSuffix, "x" + ValuesSuffix, "x" + SolverSuffix];
      RegistryAsWritten(listing, listing) == ["x"] && "x" + FunctionsSuffix !in listing
  {
    var s := FunctionsSuffix;
    var f := "x" + s + s;
    var listing := [f, "x" + ValuesSuffix, "x" + SolverSuffix];
    BaseOfDoubledSuffix();
    assert EndsWith(f, s) by { assert f[|f| - |s|..] == s; }
    assert |"x" + ValuesSuffix| < |s| && |"x" + SolverSuffix| < |s|;
    assert listing[..2] == [f, "x" + ValuesSuffix] && listing[..2][..1] == [f] && [f][..0] == [];
    assert RegistryAsWritten([f], listing) == ["x"];
    assert |"x" + s| < |f|;
  }

  /** The registry as intended: a base name is kept when the file names
   *  "<base>_eigenfunctions.npy", "<base>_eigenvalues.npy" and
   *  "<base>_solver_data.npz" are all listed. */
  predicate Registers(file: string, listing: seq<string>)
  {
    EndsWith(file, FunctionsSuffix)
      && BaseName(file) + ValuesSuffix in listing && BaseName(file) + SolverSuffix in listing
  }

  function Registry(files: seq<string>, listing: seq<string>): seq<string>
  {
    if files == [] then []
    else
      var file := files[|files| - 1];
      Registry(files[..|files| - 1], listing) + (if Registers(file, listing) then [BaseName(file)] else [])
  }

  /** A base name is registered exactly when its three files are all in the
   *  scanned listing. */
  lemma {:induction false} RegistryComplete(files: seq<string>, listing: seq<string>, b: string)
    ensures b in Registry(files, listing) <==>
      b + FunctionsSuffix in files && b + ValuesSuffix in listing && b + SolverSuffix in listing
  {
    if files != [] {
      var file := files[|files| - 1];
      var init := files[..|files| - 1];
      RegistryComplete(init, listing, b);
      assert files == init + [file];
      if Registers(file, listing) && BaseName(file) == b {
        assert b + FunctionsSuffix == file;
      }
      if b + FunctionsSuffix == file {
        assert file[|file| - |FunctionsSuffix|..] == FunctionsSuffix;
        assert BaseName(file) == b;
      }
    }
  }

  const NoFilesError := "FileNotFoundError: No eigenfunction files found in the specified directory"

  /** The two registries agree whenever `replace` removes nothing but the
   *  trailing suffix of each scanned name, so the corrected scan differs from
   *  the source's only on names like the one of
   *  `RegistryAsWrittenAdmitsMissingFile`. */
  lemma {:induction false} RegistriesAgree(files: seq<string>, listing: seq<string>)
    requires forall i :: 0 <= i < |files| && EndsWith(files[i], FunctionsSuffix) ==>
      BaseAsWritten(files[i]) == BaseName(files[i])
    ensures RegistryAsWritten(files, listing) == Registry(files, listing)
  {
    if files != [] {
      var init := files[..|files| - 1];
      assert forall i :: 0 <= i < |init| ==> init[i] == files[i];
      RegistriesAgree(init, listing);
    }
  }

  /** The registry filter of `__init__`, appending base names while scanning
   *  the directory listing; an empty registry raises FileNotFoundError.  The
   *  base name is the corrected one (only the trailing suffix removed), which
   *  by `RegistriesAgree` is the source's own whenever `replace` removes
   *  nothing but that trailing suffix. */
  method LoadRegistry(listing: seq<string>) returns (r: Result<seq<string>>)
    ensures r.Err? <==> Registry(listing, listing) == []
    ensures r.Err? ==> r.error == NoFilesError
    ensures r.Ok? ==> r.value == Registry(listing, listing)
  {
    var files: seq<string> := [];
    var i := 0;
    while i < |listing|
      invariant 0 <= i <= |listing|
      invariant files == Registry(listing[..i], listing)
    {
      var file := listing[i];
      assert listing[..i + 1][..i] == listing[..i];
      if EndsWith(file, FunctionsSuffix) {
        var baseName := file[..|file| - |FunctionsSuffix|];
        if baseName + ValuesSuffix in listing && baseName + SolverSuffix in listing {
          files := files + [baseName];
        }
      }
      i := i + 1;
    }
    assert listing[..i] == listing;
    if files == [] {
      return Err(NoFilesError);
    }
    r := Ok(files);
  }

  /** The registry is never empty once some complete triple is listed. */
  lemma RegistryNonEmpty(listing: seq<string>, b: string)
    requires b + FunctionsSuffix in listing && b + ValuesSuffix in listing && b + SolverSuffix in listing
    ensures Registry(listing, listing) != []
  {
    RegistryComplete(listing, listing, b);
  }
}
