/** The validator for plain PPM files and the four image-size consistency checks.

    File reads are parameters: a .ppm file is given by its path and the list its
    readlines() returns, and a collection of files by their paths together with
    `fs`, the function from a path to that list.  For the compressed formats,
    `sizeOf` gives the (width, height) the image library reports for a path. */
module SanityChecks {
  import opened Text
  import opened PpmFile

  /** The validator's codes.  The enumeration's numbering plays no part in any check. */
  datatype PPMCode = BadDimensions | BadDepth | NotPpm3 | NotPpm | Good | Bad

  /** What valid_ppm returns: a list of codes, a boolean, or a single code. */
  datatype Verdict = Codes(codes: seq<PPMCode>) | Flag(ok: bool) | Code(code: PPMCode)

  /** Python's truth value of a verdict: a list is true when non-empty, an enumeration
      member is always true. */
  predicate Truthy(v: Verdict) {
    match v
    case Codes(codes) => codes != []
    case Flag(ok) => ok
    case Code(_) => true
  }

  /** The part of the path after the last ';' has the extension ".ppm". */
  predicate IsPpmPath(path: string) {
    Extension(AfterLastPathSep(path)) == ".ppm"
  }

  /** What the validator needs to read a file it has accepted by name without raising:
      three lines and two numbers on the second, and, when verbose is set and the depth
      is wrong, a fourth line, which the depth message prints. */
  predicate Readable(path: string, lines: seq<string>, verbose: bool) {
    IsPpmPath(path) ==>
      && |lines| >= 3 && HasSize(lines)
      && (verbose && DepthIsWrong(lines) ==> |lines| >= 4)
  }

  predicate DepthIsWrong(lines: seq<string>)
    requires |lines| >= 3
  {
    StripNewlines(lines[2]) != "255"
  }

  predicate MagicIsWrong(lines: seq<string>)
    requires |lines| >= 1
  {
    StripNewlines(lines[0]) != "P3"
  }

  /** The number of channel lines is not three per declared pixel. */
  predicate SizeIsWrong(lines: seq<string>)
    requires |lines| >= 3 && HasSize(lines)
  {
    |lines| - 3 != Width(lines) * Height(lines) * 3
  }

  /** Position of a content code in the order the checks run. */
  function CheckRank(c: PPMCode): nat {
    match c
    case BadDepth => 0
    case NotPpm3 => 1
    case BadDimensions => 2
    case _ => 3
  }

  predicate InCheckOrder(codes: seq<PPMCode>) {
    forall i, j :: 0 <= i < j < |codes| ==> CheckRank(codes[i]) < CheckRank(codes[j])
  }

  /** The codes valid_ppm collects for a file whose name ends in .ppm.  A wrong depth
      is recorded only when verbose is set; the three checks are all made, so the
      list may hold several codes, always in the order depth, magic number, size. */
  function ErrorCodes(lines: seq<string>, verbose: bool): (codes: seq<PPMCode>)
    requires |lines| >= 3 && HasSize(lines)
    ensures BadDepth in codes <==> verbose && DepthIsWrong(lines)
    ensures NotPpm3 in codes <==> MagicIsWrong(lines)
    ensures BadDimensions in codes <==> SizeIsWrong(lines)
    ensures forall k :: 0 <= k < |codes| ==> CheckRank(codes[k]) < 3
    ensures InCheckOrder(codes)
    ensures codes == [] <==> !(verbose && DepthIsWrong(lines)) && !MagicIsWrong(lines) && !SizeIsWrong(lines)
  {
    (if verbose && DepthIsWrong(lines) then [BadDepth] else [])
    + (if MagicIsWrong(lines) then [NotPpm3] else [])
    + (if SizeIsWrong(lines) then [BadDimensions] else [])
  }

  /** valid_ppm.  A path without the .ppm extension gives [NOT_PPM] or False and
      nothing else is checked.  Otherwise the switch is the reverse of what the
      docstring says: return_error_codes gives GOOD or BAD, and the default call gives
      the list of codes, which is never the code GOOD. */
  method ValidPpm(path: string, lines: seq<string>, verbose: bool, returnErrorCodes: bool)
    returns (r: Verdict)
    requires Readable(path, lines, verbose)
    ensures !IsPpmPath(path) ==> r == if returnErrorCodes then Codes([NotPpm]) else Flag(false)
    ensures IsPpmPath(path) && returnErrorCodes ==>
      r == Code(if ErrorCodes(lines, verbose) == [] then Good else Bad)
    ensures IsPpmPath(path) && !returnErrorCodes ==> r == Codes(ErrorCodes(lines, verbose))
    ensures !returnErrorCodes ==> r != Code(Good)
  {
    var errors: seq<PPMCode> := [];
    var filename := AfterLastPathSep(path);
    var suffix := Extension(filename);
    if suffix != ".ppm" {
      errors := errors + [NotPpm];
      if returnErrorCodes {
        return Codes(errors);
      } else {
        return Flag(false);
      }
    }
    errors := CollectCodes(lines, verbose);
    if returnErrorCodes {
      r := Code(if errors == [] then Good else Bad);
    } else {
      r := Codes(errors);
    }
  }

  /** The body of valid_ppm once the name has passed: strip the lines, read the size,
      and run the three checks in order. */
  method CollectCodes(lines: seq<string>, verbose: bool) returns (errors: seq<PPMCode>)
    requires |lines| >= 3 && HasSize(lines)
    ensures errors == ErrorCodes(lines, verbose)
  {
    errors := [];
    var stripped := StripAll(lines);
    var w, h := ReadSize(stripped, lines);
    if stripped[2] != "255" {
      if verbose {
        errors := errors + [BadDepth];
      }
    }
    assert errors == if verbose && DepthIsWrong(lines) then [BadDepth] else [];
    if stripped[0] != "P3" {
      errors := errors + [NotPpm3];
    }
    if |stripped[3..]| != (w * h) * 3 {
      errors := errors + [BadDimensions];
    }
  }

  /** [x.strip('\n') for x in lines]. */
  function StripAll(lines: seq<string>): (stripped: seq<string>)
    ensures |stripped| == |lines|
    ensures forall k :: 0 <= k < |lines| ==> stripped[k] == StripNewlines(lines[k])
  {
    seq(|lines|, k requires 0 <= k < |lines| => StripNewlines(lines[k]))
  }

  /** float(dims[0]), float(dims[1]) with dims = stripped[1].split(): the same numbers
      the raw size line holds. */
  method ReadSize(stripped: seq<string>, lines: seq<string>) returns (w: nat, h: nat)
    requires |lines| >= 3 && HasSize(lines) && stripped == StripAll(lines)
    ensures w == Width(lines) && h == Height(lines)
  {
    SplitStripNewlines(lines[1]);
    var dimensions := TwoNumbers(stripped[1]).value;
    w, h := dimensions.0, dimensions.1;
  }

  /** With verbose off, a wrong depth goes unreported: a file whose only fault is its
      depth passes. */
  lemma QuietCallMissesDepth(lines: seq<string>)
    requires |lines| >= 3 && HasSize(lines)
    requires DepthIsWrong(lines) && !MagicIsWrong(lines) && !SizeIsWrong(lines)
    ensures ErrorCodes(lines, false) == []
    ensures ErrorCodes(lines, true) == [BadDepth]
  {
  }

  /** Both content faults of a file are reported, magic number first. */
  lemma BothFaultsReported(lines: seq<string>, verbose: bool)
    requires |lines| >= 3 && HasSize(lines)
    requires MagicIsWrong(lines) && SizeIsWrong(lines) && !(verbose && DepthIsWrong(lines))
    ensures ErrorCodes(lines, verbose) == [NotPpm3, BadDimensions]
  {
  }

  /** A file written in the format's own layout raises no code. */
  lemma EncodedFilePasses(width: nat, height: nat, pixels: seq<Rgb>, verbose: bool)
    requires |pixels| == width * height
    ensures |Encode(width, height, pixels)| >= 3 && HasSize(Encode(width, height, pixels))
    ensures ErrorCodes(Encode(width, height, pixels), verbose) == []
  {
    EncodeSize(width, height, pixels);
    var lines := Encode(width, height, pixels);
    assert StripNewlines(lines[0]) == "P3";
    assert StripNewlines(lines[2]) == "255";
  }

  // ---------------------------------------------------------------------------
  // The validator as its docstring describes it

  /** A file the intended validator accepts: a .ppm name, depth 255, magic number P3
      and three channel lines per declared pixel. */
  predicate IsValidPpm(path: string, lines: seq<string>)
    requires Readable(path, lines, false)
  {
    IsPpmPath(path) && !DepthIsWrong(lines) && !MagicIsWrong(lines) && !SizeIsWrong(lines)
  }

  /** The validator with the switch the docstring describes: return_error_codes gives
      the list of codes, with the depth checked whatever verbose is, and the default
      call gives True exactly for a valid file. */
  method ValidPpmIntended(path: string, lines: seq<string>, returnErrorCodes: bool)
    returns (r: Verdict)
    requires Readable(path, lines, false)
    ensures returnErrorCodes ==> r == Codes(if IsPpmPath(path) then ErrorCodes(lines, true) else [NotPpm])
    ensures !returnErrorCodes ==> r == Flag(IsValidPpm(path, lines))
  {
    var errors: seq<PPMCode> := [];
    if Extension(AfterLastPathSep(path)) != ".ppm" {
      errors := errors + [NotPpm];
      return if returnErrorCodes then Codes(errors) else Flag(false);
    }
    errors := CollectCodes(lines, true);
    r := if returnErrorCodes then Codes(errors) else Flag(errors == []);
  }

  // ---------------------------------------------------------------------------
  // Size consistency of plain PPM files

  predicate AllReadable(images: seq<string>, fs: string -> seq<string>, verbose: bool) {
    forall k :: 0 <= k < |images| ==> Readable(images[k], fs(images[k]), verbose)
  }

  /** The (width, height) on the size line; (0, 0) when the line has no two numbers.  The
      checks read it only after the validator accepted the file, and then it has them. */
  function DeclaredSize(lines: seq<string>): (nat, nat) {
    if HasSize(lines) then (Width(lines), Height(lines)) else (0, 0)
  }

  /** The inner loop of check_image_size_consistency_ppm: for every image of the
      collection it re-validates and re-reads img, not img2, so it compares img's area
      with itself and finds nothing. */
  method CompareWithEveryImage(img: string, size: (nat, nat), images: seq<string>,
                               fs: string -> seq<string>, verbose: bool)
    returns (isOk: bool)
    requires Readable(img, fs(img), verbose)
    requires size == DeclaredSize(fs(img))
    ensures isOk
  {
    isOk := true;
    for k := 0 to |images|
      invariant isOk
    {
      var v := ValidPpm(img, fs(img), verbose, false);
      if Truthy(v) {
        var (w, h) := DeclaredSize(fs(img));
        if size.0 * size.1 != w * h {
          isOk := false;
        }
      }
    }
  }

  /** check_image_size_consistency_ppm.  Its gate compares the default verdict, a list
      or False, with the code GOOD, so it never opens a file and always answers True. */
  method CheckImageSizeConsistencyPpm(images: seq<string>, fs: string -> seq<string>, verbose: bool)
    returns (isOk: bool)
    requires AllReadable(images, fs, verbose)
    ensures isOk
  {
    isOk := true;
    for k := 0 to |images|
      invariant isOk
    {
      var img := images[k];
      var v := ValidPpm(img, fs(img), verbose, false);
      if v == Code(Good) {
        var size := DeclaredSize(fs(img));
        var inner := CompareWithEveryImage(img, size, images, fs, verbose);
        if !inner {
          isOk := false;
        }
      }
    }
  }

  /** check_image_size_consistency_ppm_required_size.  The same gate never passes, so
      it answers True whatever the sizes. */
  method CheckImageSizeConsistencyPpmRequiredSize(images: seq<string>, fs: string -> seq<string>,
                                                  requiredSize: int, verbose: bool)
    returns (isOk: bool)
    requires AllReadable(images, fs, verbose)
    ensures isOk
  {
    isOk := true;
    for k := 0 to |images|
      invariant isOk
    {
      var img := images[k];
      var v := ValidPpm(img, fs(img), verbose, false);
      if v == Code(Good) {
        var (w, h) := DeclaredSize(fs(img));
        if w * h != requiredSize {
          isOk := false;
        }
      }
    }
  }

  /** width * height as declared on the size line. */
  function AreaOf(lines: seq<string>): nat {
    DeclaredSize(lines).0 * DeclaredSize(lines).1
  }

  /** The file at position i is one the intended validator accepts. */
  predicate ValidAt(images: seq<string>, fs: string -> seq<string>, i: int)
    requires AllReadable(images, fs, false)
  {
    0 <= i < |images| && IsValidPpm(images[i], fs(images[i]))
  }

  function AreaAt(images: seq<string>, fs: string -> seq<string>, i: int): nat
    requires 0 <= i < |images|
  {
    AreaOf(fs(images[i]))
  }

  /** All valid files of the collection declare the same area. */
  predicate SameAreaAmongValid(images: seq<string>, fs: string -> seq<string>)
    requires AllReadable(images, fs, false)
  {
    forall i :: 0 <= i < |images| ==> AgreesWithValid(images, fs, i)
  }

  /** If the file at position i is valid, every valid file declares its area. */
  predicate AgreesWithValid(images: seq<string>, fs: string -> seq<string>, i: int)
    requires AllReadable(images, fs, false) && 0 <= i < |images|
  {
    ValidAt(images, fs, i) ==>
      forall j :: 0 <= j < |images| && ValidAt(images, fs, j) ==> AreaAt(images, fs, j) == AreaAt(images, fs, i)
  }

  /** All valid files of the collection declare the required area. */
  predicate RequiredAreaAmongValid(images: seq<string>, fs: string -> seq<string>, requiredSize: int)
    requires AllReadable(images, fs, false)
  {
    forall i :: 0 <= i < |images| && ValidAt(images, fs, i) ==> AreaAt(images, fs, i) == requiredSize
  }

  /** The pairwise check as its docstring describes it: every valid file against every
      valid file, img against img2. */
  method CheckImageSizeConsistencyPpmIntended(images: seq<string>, fs: string -> seq<string>)
    returns (isOk: bool)
    requires AllReadable(images, fs, false)
    ensures isOk == SameAreaAmongValid(images, fs)
  {
    isOk := true;
    for k := 0 to |images|
      invariant isOk <==> forall i :: 0 <= i < k ==> AgreesWithValid(images, fs, i)
    {
      var passes := MatchesValidImages(images, fs, k);
      AgreementExtends(images, fs, k);
      if !passes {
        isOk := false;
      }
    }
  }

  lemma AgreementExtends(images: seq<string>, fs: string -> seq<string>, k: int)
    requires AllReadable(images, fs, false) && 0 <= k < |images|
    ensures (forall i :: 0 <= i < k + 1 ==> AgreesWithValid(images, fs, i)) <==>
      (forall i :: 0 <= i < k ==> AgreesWithValid(images, fs, i)) && AgreesWithValid(images, fs, k)
  {
  }

  /** One pass of the outer loop: a file the validator rejects is skipped, an accepted
      one is compared with every accepted file. */
  method MatchesValidImages(images: seq<string>, fs: string -> seq<string>, k: int)
    returns (passes: bool)
    requires AllReadable(images, fs, false) && 0 <= k < |images|
    ensures passes <==> AgreesWithValid(images, fs, k)
  {
    var img := images[k];
    var v := ValidPpmIntended(img, fs(img), false);
    passes := true;
    if v.ok {
      passes := CompareWithValidImages(AreaOf(fs(img)), images, fs);
    }
  }

  /** The intended inner loop: the area of img against that of every valid img2. */
  method CompareWithValidImages(size: nat, images: seq<string>, fs: string -> seq<string>)
    returns (isOk: bool)
    requires AllReadable(images, fs, false)
    ensures isOk <==> forall j :: 0 <= j < |images| && ValidAt(images, fs, j) ==> AreaAt(images, fs, j) == size
  {
    isOk := true;
    for k2 := 0 to |images|
      invariant isOk <==> forall j :: 0 <= j < k2 && ValidAt(images, fs, j) ==> AreaAt(images, fs, j) == size
    {
      var passes := HasArea(images, fs, k2, size);
      AreaPrefixExtends(images, fs, k2, size);
      if !passes {
        isOk := false;
      }
    }
  }

  lemma AreaPrefixExtends(images: seq<string>, fs: string -> seq<string>, k: int, area: int)
    requires AllReadable(images, fs, false) && 0 <= k < |images|
    ensures (forall j :: 0 <= j < k + 1 && ValidAt(images, fs, j) ==> AreaAt(images, fs, j) == area) <==>
      (forall j :: 0 <= j < k && ValidAt(images, fs, j) ==> AreaAt(images, fs, j) == area)
      && (ValidAt(images, fs, k) ==> AreaAt(images, fs, k) == area)
  {
    if forall j :: 0 <= j < k + 1 && ValidAt(images, fs, j) ==> AreaAt(images, fs, j) == area {
      AreaPrefixShrinks(images, fs, k, area);
    }
    if (forall j :: 0 <= j < k && ValidAt(images, fs, j) ==> AreaAt(images, fs, j) == area)
       && (ValidAt(images, fs, k) ==> AreaAt(images, fs, k) == area)
    {
      AreaPrefixGrows(images, fs, k, area);
    }
  }

  lemma AreaPrefixShrinks(images: seq<string>, fs: string -> seq<string>, k: int, area: int)
    requires AllReadable(images, fs, false) && 0 <= k < |images|
    requires forall j :: 0 <= j < k + 1 && ValidAt(images, fs, j) ==> AreaAt(images, fs, j) == area
    ensures forall j :: 0 <= j < k && ValidAt(images, fs, j) ==> AreaAt(images, fs, j) == area
    ensures ValidAt(images, fs, k) ==> AreaAt(images, fs, k) == area
  {
  }

  lemma AreaPrefixGrows(images: seq<string>, fs: string -> seq<string>, k: int, area: int)
    requires AllReadable(images, fs, false) && 0 <= k < |images|
    requires forall j :: 0 <= j < k && ValidAt(images, fs, j) ==> AreaAt(images, fs, j) == area
    requires ValidAt(images, fs, k) ==> AreaAt(images, fs, k) == area
    ensures forall j :: 0 <= j < k + 1 && ValidAt(images, fs, j) ==> AreaAt(images, fs, j) == area
  {
    forall j | 0 <= j < k + 1 && ValidAt(images, fs, j)
      ensures AreaAt(images, fs, j) == area
    {
      if j < k {
      }
    }
  }

  /** The required-size check as its docstring describes it. */
  method CheckImageSizeConsistencyPpmRequiredSizeIntended(images: seq<string>, fs: string -> seq<string>,
                                                          requiredSize: int)
    returns (isOk: bool)
    requires AllReadable(images, fs, false)
    ensures isOk == RequiredAreaAmongValid(images, fs, requiredSize)
  {
    isOk := true;
    for k := 0 to |images|
      invariant isOk <==> forall i :: 0 <= i < k && ValidAt(images, fs, i) ==> AreaAt(images, fs, i) == requiredSize
    {
      var passes := HasArea(images, fs, k, requiredSize);
      AreaPrefixExtends(images, fs, k, requiredSize);
      if !passes {
        isOk := false;
      }
    }
  }

  /** One pass of either area loop: a file the validator rejects is skipped, an
      accepted one must declare the given area. */
  method HasArea(images: seq<string>, fs: string -> seq<string>, k: int, area: int)
    returns (passes: bool)
    requires AllReadable(images, fs, false) && 0 <= k < |images|
    ensures passes <==> (ValidAt(images, fs, k) ==> AreaAt(images, fs, k) == area)
  {
    var img := images[k];
    var v := ValidPpmIntended(img, fs(img), false);
    passes := true;
    if v.ok {
      if AreaOf(fs(img)) != area {
        passes := false;
      }
    }
  }

  /** A five-character name: one letter, then ".ppm". */
  lemma PpmName(p: string)
    requires |p| == 5 && p[0] != '.' && p[0] != '/' && p[0] != '\\' && p[0] != ';' && p[1..] == ".ppm"
    ensures IsPpmPath(p)
  {
    assert LastIndex(p, ';') == -1 by {
      assert p[..4][..3][..2][..1] == [p[0]];
    }
    assert AfterLastPathSep(p) == p;
    assert LastIndex(p, '.') == 1 by {
      assert p[1] == '.' && p[2] == 'p' && p[3] == 'p' && p[4] == 'm';
      assert p[..4][..3] == p[..3] && p[..3][..2] == p[..2];
      assert LastIndex(p[..2], '.') == 1;
      assert LastIndex(p[..3], '.') == 1;
      assert LastIndex(p[..4], '.') == 1;
    }
    assert LastIndex(p, '/') == -1 by {
      assert p[..4][..3][..2][..1] == [p[0]];
    }
    assert LastIndex(p, '\\') == -1 by {
      assert p[..4][..3][..2][..1] == [p[0]];
    }
    assert p[0] != '.';
  }

  /** A file written in the format's own layout under a .ppm name is valid, and its
      declared area is width * height. */
  lemma EncodedFileValid(path: string, width: nat, height: nat, pixels: seq<Rgb>)
    requires IsPpmPath(path) && |pixels| == width * height
    ensures Readable(path, Encode(width, height, pixels), false)
    ensures IsValidPpm(path, Encode(width, height, pixels))
    ensures AreaOf(Encode(width, height, pixels)) == width * height
  {
    EncodedFilePasses(width, height, pixels, true);
    EncodeSize(width, height, pixels);
  }

  /** A collection of two files, a.ppm holding a 1 x 1 image and b.ppm a 2 x 2 one. */
  function ExampleFiles(p: string): seq<string> {
    if p == "b.ppm" then Encode(2, 2, TwoByTwo()) else Encode(1, 1, [Black()])
  }

  /** What the example files hold: both are valid, with areas 1 and 4. */
  lemma ExampleFileA()
    ensures IsPpmPath("a.ppm") && ExampleFiles("a.ppm") == Encode(1, 1, [Black()])
    ensures Readable("a.ppm", ExampleFiles("a.ppm"), false) && IsValidPpm("a.ppm", ExampleFiles("a.ppm"))
    ensures AreaOf(ExampleFiles("a.ppm")) == 1
  {
    PpmName("a.ppm");
    EncodedFileValid("a.ppm", 1, 1, [Black()]);
  }

  lemma ExampleFileB()
    ensures IsPpmPath("b.ppm") && ExampleFiles("b.ppm") == Encode(2, 2, TwoByTwo())
    ensures Readable("b.ppm", ExampleFiles("b.ppm"), false) && IsValidPpm("b.ppm", ExampleFiles("b.ppm"))
    ensures AreaOf(ExampleFiles("b.ppm")) == 4
  {
    PpmName("b.ppm");
    EncodedFileValid("b.ppm", 2, 2, TwoByTwo());
  }

  /** Both example files are valid, with areas 1 and 4. */
  lemma ExampleFilesValid()
    ensures AllReadable(["a.ppm", "b.ppm"], ExampleFiles, false)
    ensures ValidAt(["a.ppm", "b.ppm"], ExampleFiles, 0) && ValidAt(["a.ppm", "b.ppm"], ExampleFiles, 1)
    ensures AreaAt(["a.ppm", "b.ppm"], ExampleFiles, 0) == 1 && AreaAt(["a.ppm", "b.ppm"], ExampleFiles, 1) == 4
  {
    ExampleFileA();
    ExampleFileB();
    var images := ["a.ppm", "b.ppm"];
    assert images[0] == "a.ppm" && images[1] == "b.ppm";
  }

  /** Two valid files of different sizes: the intended checks reject them, while the
      checks as written accept every collection. */
  lemma MismatchedValidFiles()
    ensures AllReadable(["a.ppm", "b.ppm"], ExampleFiles, false)
    ensures !SameAreaAmongValid(["a.ppm", "b.ppm"], ExampleFiles)
    ensures !RequiredAreaAmongValid(["a.ppm", "b.ppm"], ExampleFiles, 4)
  {
    ExampleFilesValid();
    assert !AgreesWithValid(["a.ppm", "b.ppm"], ExampleFiles, 0);
  }

  /** All four consistency checks on the two example files: the checks as written
      accept them, the intended ones reject them. */
  method ExampleVerdicts() returns (pairwise: bool, required: bool, pairwiseIntended: bool, requiredIntended: bool)
    ensures pairwise && required
    ensures !pairwiseIntended && !requiredIntended
  {
    var images := ["a.ppm", "b.ppm"];
    MismatchedValidFiles();
    pairwise := CheckImageSizeConsistencyPpm(images, ExampleFiles, false);
    required := CheckImageSizeConsistencyPpmRequiredSize(images, ExampleFiles, 4, false);
    pairwiseIntended := CheckImageSizeConsistencyPpmIntended(images, ExampleFiles);
    requiredIntended := CheckImageSizeConsistencyPpmRequiredSizeIntended(images, ExampleFiles, 4);
  }

  function Black(): Rgb {
    Rgb("0\n", "0\n", "0\n")
  }

  function TwoByTwo(): seq<Rgb> {
    [Black(), Black(), Black(), Black()]
  }

  // ---------------------------------------------------------------------------
  // Size consistency of images in the compressed formats

  /** Every image has the same width and the same height as every other. */
  predicate AllSameSize(images: seq<string>, sizeOf: string -> (nat, nat)) {
    forall i, j :: 0 <= i < |images| && 0 <= j < |images| ==> sizeOf(images[i]) == sizeOf(images[j])
  }

  /** Every image has width * height equal to the required size. */
  predicate AllHaveArea(images: seq<string>, sizeOf: string -> (nat, nat), requiredSize: int) {
    forall i :: 0 <= i < |images| ==> sizeOf(images[i]).0 * sizeOf(images[i]).1 == requiredSize
  }

  /** check_image_size_consistency_generic: the images are opened into a dictionary
      keyed by path, and every entry is compared with every entry, width with width and
      height with height. */
  method CheckImageSizeConsistencyGeneric(images: seq<string>, sizeOf: string -> (nat, nat))
    returns (isOk: bool)
    ensures isOk == AllSameSize(images, sizeOf)
  {
    isOk := true;
    var generic: map<string, (nat, nat)> := map[];
    for k := 0 to |images|
      invariant generic.Keys == set i | 0 <= i < k :: images[i]
      invariant forall p :: p in generic ==> generic[p] == sizeOf(p)
    {
      generic := generic[images[k] := sizeOf(images[k])];
    }
    var keys := generic.Keys;
    var outer := keys;
    while outer != {}
      invariant outer <= keys
      invariant isOk <==> forall p, q :: p in keys - outer && q in keys ==> generic[p] == generic[q]
    {
      var i :| i in outer;
      var size := generic[i];
      var inner := keys;
      ghost var before := isOk;
      while inner != {}
        invariant inner <= keys
        invariant isOk <==> before && forall q :: q in keys - inner ==> generic[q] == size
      {
        var j :| j in inner;
        if generic[j].0 != size.0 || generic[j].1 != size.1 {
          isOk := false;
        }
        inner := inner - {j};
      }
      outer := outer - {i};
    }
    assert forall i :: 0 <= i < |images| ==> images[i] in keys;
  }

  /** check_image_size_consistency_generic_required_size: every opened image's
      width * height against the required size. */
  method CheckImageSizeConsistencyGenericRequiredSize(images: seq<string>, sizeOf: string -> (nat, nat),
                                                      requiredSize: int)
    returns (isOk: bool)
    ensures isOk == AllHaveArea(images, sizeOf, requiredSize)
  {
    isOk := true;
    var generic: map<string, (nat, nat)> := map[];
    for k := 0 to |images|
      invariant generic.Keys == set i | 0 <= i < k :: images[i]
      invariant forall p :: p in generic ==> generic[p] == sizeOf(p)
    {
      generic := generic[images[k] := sizeOf(images[k])];
    }
    var keys := generic.Keys;
    var remaining := keys;
    while remaining != {}
      invariant remaining <= keys
      invariant isOk <==> forall p :: p in keys - remaining ==> generic[p].0 * generic[p].1 == requiredSize
    {
      var i :| i in remaining;
      var img := generic[i];
      if img.0 * img.1 != requiredSize {
        isOk := false;
      }
      remaining := remaining - {i};
    }
    assert forall i :: 0 <= i < |images| ==> images[i] in keys;
  }

  /** The generic check compares width and height, not area: 100 x 1 and 10 x 10 differ. */
  lemma GenericComparesBothSides()
    ensures !AllSameSize(["a.jpg", "b.jpg"], (p: string) => if p == "a.jpg" then (100, 1) else (10, 10))
  {
    var sizeOf := (p: string) => if p == "a.jpg" then (100, 1) else (10, 10);
    assert sizeOf(["a.jpg", "b.jpg"][0]) != sizeOf(["a.jpg", "b.jpg"][1]);
  }

  /** Against a required size of 100, a 20 x 5 image passes and a 10 x 9 image fails. */
  lemma RequiredSizeExample()
    ensures AllHaveArea(["a.jpg"], (p: string) => (20, 5), 100)
    ensures !AllHaveArea(["b.jpg"], (p: string) => (10, 9), 100)
  {
    var sizeOf := (p: string) => (10, 9);
    assert sizeOf(["b.jpg"][0]).0 * sizeOf(["b.jpg"][0]).1 != 100;
  }
}
