# ImageSlicer: plain-PPM validation and image blending, modelled in Dafny

ImageSlicer blends a collection of images of one size into a single image. Each image gives
one slice, either a band of columns (left to right) or a band of rows (top to bottom).
Plain PPM ("P3") files are blended by rewriting their text. Other formats are blended by
cropping and pasting through the imaging library. Before blending, the tool can validate
PPM files and check that all images have the same size.

This project models the two files that hold that logic.

- `SanityChecks.py` is modelled in `SanityChecks.dfy`:
  - the `PPMCodes` enumeration;
  - the validator `valid_ppm`;
  - the four `check_image_size_consistency_*` checks.
- `ImageUtils.py` is modelled in `ImageUtils.dfy`:
  - the pixel-grid reader `get_pixel_data`;
  - `extract_ppm_data`;
  - both paths of `create_blend_ppm`;
  - the crop and paste arithmetic of `create_blend_generic`.

Supporting modules:

- `Text.dfy`: the Python string operations the code relies on. These are `str.split()`,
  `str.strip('\n')`, `int()` on decimal tokens, `''.join`, clamped slicing, `str.rfind` and
  `ntpath.splitext`.
- `PpmFile.dfy`: a PPM file as its `readlines()` list. It holds the size line, the payload
  after the three header lines, and a writer used for examples.
- `Bands.dfy`: the arithmetic of the bands.
  - The PPM blend gives image i the units `floor(i*e/n)` to `floor((i+1)*e/n)`.
  - The generic blend gives image i the units `[i*c, (i+1)*c)`, where `c = e div n`.
- `Pictures.dfy`: `Image.new`, `Image.crop` and `Image.paste` as pure functions on pictures
  held as values.

Files are not read. A file is the list `readlines()` returns, passed in as a parameter. A
collection of PPM files is a list of paths together with a function `fs` from a path to
its lines. For the compressed formats, a function `sizeOf` from a path to the
`(width, height)` the imaging library reports stands in for the files. The PPM blend's
`leftoff` is a float in the source. Here it is exact: a numerator over the number of
images n.

## Model

| member | source | states |
|---|---|---|
| `SanityChecks.ErrorCodes` | SanityChecks.py:203-226 | A file gets BAD_DEPTH iff verbose is set and the stripped third line is not "255". It gets NOT_PPM3 iff the stripped first line is not "P3". It gets BAD_DIMENSIONS iff the number of lines after the header is not 3*w*h. The codes always come in the order depth, magic number, size, and the list is empty exactly when none of the three applies. |
| `SanityChecks.ValidPpm` | SanityChecks.py:163-230 | A name without the .ppm extension gives [NOT_PPM] with return_error_codes set and False without it. A .ppm file with return_error_codes set gives GOOD iff its code list is empty and BAD otherwise. Without the flag it gives the list itself, so the default call never returns GOOD. |
| `SanityChecks.CollectCodes` | SanityChecks.py:196-226 | The non-short-circuiting sequence of the three checks on the stripped lines yields exactly `ErrorCodes`. |
| `SanityChecks.ReadSize` | SanityChecks.py:198-201 | The size read from the stripped second line is the (width, height) of the raw line. |
| `Text.SplitStripNewlines` | SanityChecks.py:198-199 | Stripping line feeds from a line does not change its `split()` tokens. |
| `SanityChecks.QuietCallMissesDepth` | SanityChecks.py:203-209 | A file whose only fault is its depth gets no code without verbose and gets [BAD_DEPTH] with it. |
| `SanityChecks.BothFaultsReported` | SanityChecks.py:210-226 | A file with a wrong magic number and a wrong line count gets both codes, NOT_PPM3 first. |
| `SanityChecks.EncodedFilePasses` | SanityChecks.py:203-226 | A file laid out as the format prescribes (P3, "w h", 255, 3*w*h channel lines) gets no code, whatever verbose is. |
| `SanityChecks.ValidPpmIntended` | SanityChecks.py:163-177 | The validator as its docstring describes it. return_error_codes gives the code list, with the depth always checked. The default call gives True exactly for a valid .ppm file. |
| `SanityChecks.CompareWithEveryImage` | SanityChecks.py:44-62 | The inner loop re-validates and re-reads `img`, not `img2`, so it compares img's area with itself and always keeps is_ok True. |
| `SanityChecks.CheckImageSizeConsistencyPpm` | SanityChecks.py:17-63 | The gate compares the default verdict with PPMCodes.GOOD, which it never equals, so the check returns True for every collection. |
| `SanityChecks.CheckImageSizeConsistencyPpmRequiredSize` | SanityChecks.py:66-99 | The same gate never passes, so the check returns True for every collection and every required size. |
| `SanityChecks.MismatchedValidFiles` | SanityChecks.py:32-34 | Two valid files of areas 1 and 4 violate both "all valid files share one area" and "all valid files have area 4", so both intended checks reject them. |
| `SanityChecks.ExampleVerdicts` | SanityChecks.py:17-99 | On those two files, both checks as written return True, and both intended checks return False. |
| `SanityChecks.CheckImageSizeConsistencyPpmIntended` | SanityChecks.py:17-27 | The pairwise check as documented returns True iff every pair of valid files declares the same area. |
| `SanityChecks.MatchesValidImages` | SanityChecks.py:32-62 | One outer pass: a rejected file passes, and an accepted one passes iff every valid file has its area. |
| `SanityChecks.CompareWithValidImages` | SanityChecks.py:44-56 | The corrected inner loop returns True iff every valid file declares the given area. |
| `SanityChecks.CheckImageSizeConsistencyPpmRequiredSizeIntended` | SanityChecks.py:66-99 | The required-size check as documented returns True iff every valid file declares exactly the required area. |
| `SanityChecks.HasArea` | SanityChecks.py:82-90 | One file passes iff it is not valid or its width*height equals the given area. |
| `SanityChecks.CheckImageSizeConsistencyGeneric` | SanityChecks.py:102-131 | After the path-keyed dictionary is filled, it returns True iff every image has the same width and the same height as every other. |
| `SanityChecks.CheckImageSizeConsistencyGenericRequiredSize` | SanityChecks.py:134-160 | Returns True iff every image's width*height equals the required size. |
| `SanityChecks.GenericComparesBothSides` | SanityChecks.py:117-123 | The pairwise generic check compares sides, not areas: 100x1 and 10x10 do not match. |
| `SanityChecks.RequiredSizeExample` | SanityChecks.py:149-152 | With required size 100, a 20x5 image passes and a 10x9 image fails. |
| `ImageUtils.GetPixelData` | ImageUtils.py:63-89 | The map has exactly the keys of the first floor(\|payload\|/3) pixels. Pixel k, channel lines 3k..3k+2, sits under (k div w, k mod w). |
| `ImageUtils.ReadEncodedGrid` | ImageUtils.py:63-89 | Writing a grid of pixels as a file and reading it back with get_pixel_data gives exactly the grid. The keys are the pairs in [0,h) x [0,w), and (row, col) holds the grid's pixel at that row and column. |
| `ImageUtils.KeyNext` | ImageUtils.py:82-88 | The (x, y) counters step to the next column, or to column 0 of the next row once y passes w-1. |
| `ImageUtils.KeysDistinct` | ImageUtils.py:79-88 | No pixel's key was used by an earlier pixel, so no entry is overwritten. |
| `ImageUtils.KeyInjective` | ImageUtils.py:79-88 | Distinct pixels get distinct keys. |
| `ImageUtils.PixelKeysCount` | ImageUtils.py:79-88 | The map holds exactly floor(\|payload\|/3) keys. |
| `ImageUtils.PixelKeysGrid` | ImageUtils.py:79-88 | For a payload of 3*w*h lines, the keys are exactly the pairs in [0,h) x [0,w). |
| `ImageUtils.PixelAt` | ImageUtils.py:76-88 | With a complete payload, entry (row, col) exists and holds pixel row*w + col. |
| `ImageUtils.ExtractPpmData` | ImageUtils.py:92-111 | The header is the first three lines, and header plus payload give back the file. The width and height are the two numbers on line 2. The magic number and depth are lines 1 and 3. |
| `ImageUtils.ExtractEncoded` | ImageUtils.py:99-110 | Reading a written file gives back the size, depth, magic number and header it was written with. |
| `ImageUtils.BlendLeftRight` | ImageUtils.py:159-176 | The output is the first file's header followed by exactly w*h pixels in row-major order. Pixel k is the same pixel of the image whose band holds column k mod w. |
| `ImageUtils.PixelDataOfAll` | ImageUtils.py:167 | `datas` holds get_pixel_data of every file, in order. |
| `ImageUtils.BlendRows` | ImageUtils.py:169-176 | After every row, the output holds exactly that many rows of blended pixels. |
| `ImageUtils.BlendRow` | ImageUtils.py:171-176 | The image loop of one row adds that row's w blended pixels and returns leftoff to 0, so every row starts at 0. |
| `ImageUtils.BlendBand` | ImageUtils.py:172-176 | One pass of the image loop for image i, entered with leftoff = i*w/n. It adds image i's band of the row, and leftoff moves on to (i+1)*w/n, or back to 0 after the last image. |
| `ImageUtils.CopyBand` | ImageUtils.py:174-175 | The column loop for image i adds the row's pixels from floor(i*w/n) to floor((i+1)*w/n). |
| `ImageUtils.CopyPixel` | ImageUtils.py:175 | `''.join(d[(h, w)])` is the next blended pixel. |
| `ImageUtils.BandPixel` | ImageUtils.py:169-176 | Inside image i's band of a row, the blended pixel is image i's own pixel at that (row, column). |
| `Bands.Owner` | ImageUtils.py:174 | Every column of [0,w) lies in the band of some image. |
| `Bands.OwnerUnique` | ImageUtils.py:174 | The bands are disjoint: a column in band i belongs to image i only. |
| `Bands.OwnedCountIsBand` | ImageUtils.py:174 | Counting the columns below k whose owner is image i gives the part of [floor(i*w/n), floor((i+1)*w/n)) below k. |
| `Bands.OwnedTotalIsCut` | ImageUtils.py:174 | Images 0..m-1 together own exactly floor(m*w/n) columns. |
| `Bands.OwnersCoverExtent` | ImageUtils.py:174 | The numbers of columns each image owns add up to w exactly. |
| `Bands.LeftoffColumns` | ImageUtils.py:174 | With leftoff = i*w/n, the source's range `int(leftoff) % w` to `int(leftoff + w/n) % (w+1)` is image i's band. |
| `Bands.LeftoffAdvance` | ImageUtils.py:176 | `(leftoff + w/n) % w` moves to image i+1's marker, and back to 0 after the last image. |
| `Bands.ThreeBandsOverTwo` | ImageUtils.py:174 | With w=2 and three images, image 0 gets no column, image 1 gets column 0 and image 2 gets column 1. |
| `ImageUtils.BlendOfCopies` | ImageUtils.py:169-176 | Blending copies of one picture left to right gives that picture's pixels. |
| `ImageUtils.LeftRightOfCopies` | ImageUtils.py:159-176 | Blending copies of one complete file, including n = 1, writes the file back unchanged. |
| `ImageUtils.CreateBlendPpm` | ImageUtils.py:114-185 | Dispatches to the left-right or the top-down path. |
| `ImageUtils.BlendTopDown` | ImageUtils.py:179-184 | File m gives its lines from floor(S/n) to floor((S+len)/n), clamped, where S is the total length of the earlier files. With no files the output is empty. |
| `ImageUtils.BandLinesAt` | ImageUtils.py:179-184 | Cutting blocks of lines proportionally yields unit*Cut(m) lines, and line t comes from the file whose band holds block t div unit. |
| `ImageUtils.TopDownUniform` | ImageUtils.py:179-184 | With L lines per file, the output has exactly L lines, header included. Line k is line k of the file whose band [floor(i*L/n), floor((i+1)*L/n)) holds k. |
| `ImageUtils.TopDownOfCopies` | ImageUtils.py:179-184 | Blending copies of one file top to bottom, including n = 1, gives the file back. |
| `ImageUtils.TopDownSplitsPixel` | ImageUtils.py:183-184 | Two valid 2x1 files of nine lines are cut at line 4. The output's first pixel takes red from the first file and green and blue from the second, so it matches neither file. |
| `ImageUtils.BlendTopDownRows` | ImageUtils.py:142-145 | The top-down blend as its documentation describes it: the first file's header, then whole rows, with image i giving rows floor(i*h/n) to floor((i+1)*h/n). |
| `ImageUtils.RowBandsKeepPixels` | ImageUtils.py:142-145 | In the row-aligned blend, every pixel's three lines are that same pixel of the one file whose band holds its row. |
| `ImageUtils.CreateBlendGeneric` | ImageUtils.py:5-60 | Pixel (x, y) comes from image pos div c when its position pos along the axis is below n*c, where c = extent div n. Otherwise it keeps the new image's colour. The size is the first image's. |
| `ImageUtils.CropBands` | ImageUtils.py:33-53 | Image i is cropped to units [i*c, (i+1)*c) along the axis, over the full other side. |
| `ImageUtils.CropOne` | ImageUtils.py:37-39 | The crop box's far edge `(leftoff + c) % (extent+1)` is (i+1)*c, and `leftoff` becomes (i+1)*c without wrapping while images remain. |
| `ImageUtils.PasteBands` | ImageUtils.py:41-58 | After the paste loop, the new image agrees with the blend on [0, n*c) and shows its own colour beyond. |
| `ImageUtils.PasteStep` | ImageUtils.py:46-47 | Each crop fits its paste box exactly, and pasting band i extends the agreement from i*c to (i+1)*c. |
| `Bands.EvenBoxEnd` | ImageUtils.py:37 | `(i*c + c) % (extent + 1)` is (i+1)*c for every image. |
| `Bands.EvenLeftoffAdvance` | ImageUtils.py:39 | `(i*c + c) % extent` is (i+1)*c while another image follows. |
| `Bands.FloorShift` | ImageUtils.py:57 | `int(leftoff + h/n)` equals leftoff + int(h/n) for an integer leftoff, so the top-down paste box matches the crop box. |
| `Bands.EvenBandsFit` | ImageUtils.py:31-32 | The n even bands fit in the extent and leave exactly extent mod n units over. |
| `ImageUtils.GenericBandOwner` | ImageUtils.py:31-58 | Inside band i, the generic blend shows image i. |
| `ImageUtils.GenericLeftover` | ImageUtils.py:31-58 | The last extent mod n units along the axis keep the new image's colour, whatever the images hold. |
| `ImageUtils.GenericLeavesStrip` | ImageUtils.py:31-47 | For two 3x1 pictures blended left to right, column 2 comes from neither picture. |
| `ImageUtils.CreateBlendGenericCovering` | ImageUtils.py:5-16 | The generic blend with proportional bands: every pixel comes from the image whose band holds its position, so no strip is left over. |

## Left out

- I/O is not modelled. The source opens and reads files with `open()`/`readlines()` and
  opens images with `Image.open`. Here the contents are parameters: `lines`, `fs`, `sizeOf`
  and `Picture` values.
- Printing is not modelled: the verbose messages and the `fullpath` choice between path and
  file name. Printing affects no return value.
- Floating point is not modelled.
  - The sizes are parsed with `float()` in SanityChecks.py (lines 40-41, 52-53, 86-87,
    200-201) and with `int()` in ImageUtils.py (lines 75, 104-105). Here they are exact
    naturals.
  - `width / divisor` and `len(lines) / divisor` are IEEE doubles (ImageUtils.py:174-176,
    183-184). Here they are exact rationals, a numerator over n.
- `ImageUtils.BlendLeftRight`: the model is exact, and the source's doubles are not, even
  for small pictures. Repeated sums of w/n can fall just below an integer, and `int()`
  then cuts a band short.
  - With w = 8 and six images, w/n is 4/3 rounded. After five additions `leftoff` is
    6.666…, and the sixth addition (the last image's `leftoff + w/n`) gives
    7.9999999999999991, just below 8. So the first row's last band is column 6 alone
    instead of columns 6 and 7.
  - `leftoff` then stays just below 8 instead of returning to 0. The next row begins with
    an empty band at column 7 and misses columns 0 and 7. A two-row picture gets 7 and 6
    pixels in its rows instead of 8 and 8.
  - With w = 2 and ten images, column 1 of the first row is never written. The second row
    writes column 1 before column 0.
  - So the source can write fewer than w*h pixels, or write them out of order. The model
    always writes exactly w*h pixels in row-major order, as the exact arithmetic gives.
- `ImageUtils.BlendTopDown`: the slice bounds (ImageUtils.py:183-184) lose lines the same
  way. Take seven 3x1 files of 12 lines each, so len/n is 12/7 rounded. The last file's
  slice is [int(10.285…), int(11.999…)) = [10, 11), so line 11 is never written. The
  output then has 11 lines instead of 12, which the validator rejects with BAD_DIMENSIONS.
  The model's exact slices give 12 lines.
- Only plain decimal tokens are modelled on the size line. A size line that holds anything
  else falls outside the model, as if it had no two numbers. Both parsers accept more than
  digits, and each accepts different things.
  - Both `int()` and `float()` accept a leading '+' or '-', and non-ASCII decimal digits.
    Both also accept single underscores between digits, such as "1_0". Neither accepts an
    underscore at the start or end of the digits, such as "_1" or "1_". The surrounding
    whitespace both would skip is already removed by `split()`.
  - Only `float()`, used in SanityChecks.py, accepts a fraction ("2.0" or "2."), an
    exponent ("1e1"), or "inf", "infinity" and "nan" in any case. `int()`, used in
    ImageUtils.py, rejects all of these with ValueError.
- Paths are read with Windows semantics. `os.pathsep` is taken as ';', and `splitext`
  treats '\\' and '/' as separators. On POSIX, `os.pathsep` is ':'.
- Where the source raises an exception, the model has a precondition instead:
  - too few lines, or no two numbers on line 2 (IndexError or ValueError);
  - the depth message printing `lines[3]` of a three-line file under verbose
    (SanityChecks.py:206-208), which is part of `Readable`;
  - a missing pixel key (KeyError in `create_blend_ppm`);
  - a zero width or height under `%` (ZeroDivisionError at ImageUtils.py:39, 53, 174);
  - an empty image list on the left-right path;
  - an empty image list in `create_blend_generic` (IndexError on `imagesl[0]` at
    ImageUtils.py:28), excluded by `SamePictures`, which asks for at least one picture.
- `ImageUtils.BlendLeftRight` requires all files to declare the first file's size and to
  hold that many pixels, as the docstring assumes. With files of different sizes, the
  source reads each file's map under its own width. That case is not modelled.
- `ImageUtils.CreateBlendGeneric` requires pictures of one size and models them as
  immutable values. `paste` returns a new picture instead of changing `new_img` in place.
  - The image mode is not modelled.
  - The colour `Image.new` fills with is the parameter `background`.
  - PIL's padding of crop boxes outside the picture and its clipping of paste boxes are not
    modelled, because the boxes used here always lie inside the picture.
- Dictionary iteration order is not modelled. In the generic checks, keys are visited as a
  set, and a repeated path counts once, as in the source's dictionary.
- `retrieve_valid_files` (ImageUtils.py:188-240) is directory traversal and is not part of
  this model.
- Handlers.py and ImageSlicer.py are not part of this model. They are command-line parsing,
  file writing and orchestration.

## Findings

| source | as written | input that shows it | evidently intended | confidence | as-written member | corrected member |
|---|---|---|---|---|---|---|
| SanityChecks.py:227-230 | `return_error_codes=True` returns GOOD/BAD, and the default returns the code list | any .ppm file with default arguments: the result is a list, never True or False | the docstring's switch: codes when asked for, True/False otherwise (lines 170-176) | high, not executed | `SanityChecks.ValidPpm` | `SanityChecks.ValidPpmIntended` |
| SanityChecks.py:203-209 | BAD_DEPTH is appended inside `if verbose:` | a .ppm file whose only fault is depth "254", verbose off: no code (`QuietCallMissesDepth`) | the depth is checked whatever verbose is | high, not executed | `SanityChecks.QuietCallMissesDepth` | `SanityChecks.ValidPpmIntended` |
| SanityChecks.py:34 | the gate `valid_ppm(img) == PPMCodes.GOOD` never holds, and the inner loop re-reads `img` (lines 46-55) | valid a.ppm (1x1) and b.ppm (2x2): the check returns True (`ExampleVerdicts`) | every valid file compared with every valid `img2` | high, not executed | `SanityChecks.CheckImageSizeConsistencyPpm` | `SanityChecks.CheckImageSizeConsistencyPpmIntended` |
| SanityChecks.py:82 | the same gate never holds | valid a.ppm (1x1) and b.ppm (2x2) with required size 4: the check returns True (`ExampleVerdicts`) | every valid file checked against the required size | high, not executed | `SanityChecks.CheckImageSizeConsistencyPpmRequiredSize` | `SanityChecks.CheckImageSizeConsistencyPpmRequiredSizeIntended` |
| ImageUtils.py:183-184 | top-down chunks are cut by line count, with the three header lines counted | two valid 2x1 files of nine lines: the cut falls at line 4 and the first pixel mixes both files | whole rows from each image, as the docstring shows (lines 142-145) | medium, not executed | `ImageUtils.TopDownSplitsPixel` | `ImageUtils.BlendTopDownRows` |
| ImageUtils.py:31-58 | every band is int(extent / n) wide, so the last extent mod n columns or rows are never pasted | two 3x1 pictures blended left to right: column 2 keeps `Image.new`'s colour | slices that together form the whole image (lines 6-7) | medium, not executed | `ImageUtils.GenericLeavesStrip` | `ImageUtils.CreateBlendGenericCovering` |
