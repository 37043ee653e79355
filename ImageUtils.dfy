/** The pixel-grid parser and the two blend engines.

    A plain PPM file is the list its readlines() returns (see PpmFile).  The blend of
    compressed images works on pictures given as a size and a function from (x, y) to
    a pixel; crop, paste and Image.new are modelled as pure functions on them. */
module ImageUtils {
  import opened Text
  import opened PpmFile
  import opened Bands
  import opened Pictures

  // ---------------------------------------------------------------------------
  // get_pixel_data

  /** The key under which get_pixel_data stores pixel k of a file whose size line gives
      `width`: (row, column), the column counter wrapping once it exceeds width - 1.
      A width of 0 wraps after every pixel, as a width of 1 does. */
  function Key(k: nat, width: nat): (int, int) {
    var w := if width >= 1 then width else 1;
    (k / w, k % w)
  }

  /** The keys of the first n pixels. */
  function PixelKeys(n: nat, width: nat): set<(int, int)> {
    set k | 0 <= k < n :: Key(k, width)
  }

  /** A map holding pixel k of `payload` under Key(k, width), for every complete triple
      of channel lines, and nothing else. */
  predicate GridMap(data: map<(int, int), Rgb>, payload: seq<string>, width: nat) {
    && data.Keys == PixelKeys(|payload| / 3, width)
    && forall k :: 0 <= k < |payload| / 3 ==> data[Key(k, width)] == Pixel(payload, k)
  }

  /** What get_pixel_data returns for a file: pixel k, channel lines 3k, 3k+1 and
      3k+2 after the header, under Key(k), for every complete triple. */
  predicate PixelMap(data: map<(int, int), Rgb>, lines: seq<string>)
    requires HasSize(lines)
  {
    GridMap(data, Payload(lines), Width(lines))
  }

  /** get_pixel_data: the channel lines are taken three at a time and stored under
      (x, y), y counting columns and x rows. */
  method GetPixelData(lines: seq<string>) returns (data: map<(int, int), Rgb>)
    requires HasSize(lines)
    ensures PixelMap(data, lines)
  {
    data := map[];
    var w: int := TwoNumbers(lines[1]).value.0;
    var col := Payload(lines);
    var x, y := 0, 0;
    var k := 0;
    while k < |col| / 3
      invariant 0 <= k <= |col| / 3
      invariant (x, y) == Key(k, w)
      invariant data.Keys == PixelKeys(k, w)
      invariant forall j :: 0 <= j < k ==> data[Key(j, w)] == Pixel(col, j)
    {
      KeyNext(k, w);
      KeysDistinct(k, w);
      data := data[(x, y) := Pixel(col, k)];
      y := y + 1;
      if y > w - 1 {
        y := 0;
        x := x + 1;
      }
      k := k + 1;
    }
  }

  /** How the counters move from one pixel to the next. */
  lemma KeyNext(k: nat, width: nat)
    ensures Key(k + 1, width) ==
      if Key(k, width).1 + 1 > width - 1 then (Key(k, width).0 + 1, 0)
      else (Key(k, width).0, Key(k, width).1 + 1)
  {
    var w := if width >= 1 then width else 1;
    var q, r := k / w, k % w;
    assert k == q * w + r && r < w;
    if r + 1 == w {
      assert k + 1 == (q + 1) * w;
      DivUnique(q + 1, k + 1, w);
    } else {
      DivUnique(q, k + 1, w);
    }
  }

  /** Pixel k gets a key no earlier pixel has. */
  lemma KeysDistinct(k: nat, width: nat)
    ensures Key(k, width) !in PixelKeys(k, width)
  {
    forall j | 0 <= j < k
      ensures Key(j, width) != Key(k, width)
    {
      if Key(j, width) == Key(k, width) {
        KeyInjective(j, k, width);
      }
    }
  }

  /** Different pixels get different keys: the map loses nothing. */
  lemma KeyInjective(i: nat, j: nat, width: nat)
    requires Key(i, width) == Key(j, width)
    ensures i == j
  {
    var w := if width >= 1 then width else 1;
    assert i == w * (i / w) + i % w;
    assert j == w * (j / w) + j % w;
  }

  /** There are exactly as many keys as pixels: floor(|payload| / 3) of them. */
  lemma {:induction false} PixelKeysCount(n: nat, width: nat)
    ensures |PixelKeys(n, width)| == n
  {
    if n > 0 {
      PixelKeysCount(n - 1, width);
      KeysDistinct(n - 1, width);
      assert PixelKeys(n, width) == PixelKeys(n - 1, width) + {Key(n - 1, width)};
    }
  }

  /** The key of the pixel at (row, column) of a row-major grid. */
  lemma KeyOf(row: nat, column: nat, width: nat)
    requires column < width
    ensures Key(row * width + column, width) == (row, column)
  {
    DivUnique(row, row * width + column, width);
  }

  /** For a payload of 3 * width * height lines the keys are exactly the (row, column)
      pairs of the width x height grid. */
  lemma PixelKeysGrid(width: nat, height: nat)
    requires width >= 1
    ensures PixelKeys(width * height, width) ==
      set r, c | 0 <= r < height && 0 <= c < width :: (r, c)
  {
    var grid := set r, c | 0 <= r < height && 0 <= c < width :: (r, c);
    forall key | key in PixelKeys(width * height, width)
      ensures key in grid
    {
      var k :| 0 <= k < width * height && key == Key(k, width);
      DivUpper(height, k, width);
    }
    forall key | key in grid
      ensures key in PixelKeys(width * height, width)
    {
      var (r, c) := key;
      KeyOf(r, c, width);
      MulLe(r + 1, height, width);
      assert r * width + c < width * height;
    }
  }

  /** Every (row, column) of a width x height grid has its pixel in the map when the
      payload is complete: the entry at (row, column) is pixel row * width + column. */
  lemma PixelAt(data: map<(int, int), Rgb>, payload: seq<string>, width: nat, height: nat,
                row: nat, column: nat)
    requires GridMap(data, payload, width)
    requires row < height && column < width && |payload| >= 3 * (width * height)
    ensures 3 * (row * width + column) + 2 < |payload|
    ensures (row, column) in data
    ensures data[(row, column)] == Pixel(payload, row * width + column)
  {
    var k := row * width + column;
    RowMajorBound(row, column, width, height);
    KeyOf(row, column, width);
    assert k < |payload| / 3;
    assert data[Key(k, width)] == Pixel(payload, k);
  }

  /** Writing a row-major pixel list as a file and reading it back with get_pixel_data
      gives the grid: exactly the (row, column) keys of the picture, each holding
      pixel row * width + column. */
  method ReadEncodedGrid(width: nat, height: nat, pixels: seq<Rgb>) returns (data: map<(int, int), Rgb>)
    requires width >= 1 && |pixels| == width * height
    ensures data.Keys == set r, c | 0 <= r < height && 0 <= c < width :: (r, c)
    ensures forall r, c :: 0 <= r < height && 0 <= c < width ==> data[(r, c)] == GridPixel(pixels, width, height, r, c)
  {
    var lines := Encode(width, height, pixels);
    EncodeSize(width, height, pixels);
    data := GetPixelData(lines);
    EncodedGrid(data, pixels, width, height);
  }

  lemma EncodedGrid(data: map<(int, int), Rgb>, pixels: seq<Rgb>, width: nat, height: nat)
    requires width >= 1 && |pixels| == width * height && GridMap(data, Channels(pixels), width)
    ensures data.Keys == set r, c | 0 <= r < height && 0 <= c < width :: (r, c)
    ensures forall r, c :: 0 <= r < height && 0 <= c < width ==> data[(r, c)] == GridPixel(pixels, width, height, r, c)
  {
    var n := width * height;
    DivUnique(n, 3 * n, 3);
    assert |Channels(pixels)| / 3 == n;
    PixelKeysGrid(width, height);
    forall r, c | 0 <= r < height && 0 <= c < width
      ensures data[(r, c)] == GridPixel(pixels, width, height, r, c)
    {
      EncodedPixel(data, pixels, width, height, r, c);
    }
  }

  lemma EncodedPixel(data: map<(int, int), Rgb>, pixels: seq<Rgb>, width: nat, height: nat, r: nat, c: nat)
    requires |pixels| == width * height && GridMap(data, Channels(pixels), width)
    requires r < height && c < width
    ensures (r, c) in data && data[(r, c)] == GridPixel(pixels, width, height, r, c)
  {
    MulLe(0, r, width);
    var k := r * width + c;
    PixelAt(data, Channels(pixels), width, height, r, c);
    RowMajorBound(r, c, width, height);
    assert data[(r, c)] == Pixel(Channels(pixels), k) == pixels[k];
  }

  /** Pixel (r, c) of a row-major pixel list: pixels[r * width + c]. */
  function GridPixel(pixels: seq<Rgb>, width: nat, height: nat, r: nat, c: nat): Rgb
    requires |pixels| == width * height && r < height && c < width
  {
    RowMajorBound(r, c, width, height);
    pixels[r * width + c]
  }

  /** Position row * width + column of a row-major grid lies inside the grid. */
  lemma RowMajorBound(row: nat, column: nat, width: nat, height: nat)
    requires row < height && column < width
    ensures row * width + column < width * height
    ensures 3 * (row * width + column) + 2 < 3 * (width * height)
  {
    MulLe(row + 1, height, width);
    assert (row + 1) * width == row * width + width;
  }

  // ---------------------------------------------------------------------------
  // extract_ppm_data

  /** The attributes extract_ppm_data returns. */
  datatype PpmInfo = PpmInfo(width: nat, height: nat, depth: string, magicNumber: string, header: seq<string>)

  /** extract_ppm_data: the size from the second line, the raw depth and magic-number
      lines, and the three header lines.  The header followed by the payload is the
      whole file. */
  function ExtractPpmData(lines: seq<string>): (info: PpmInfo)
    requires |lines| >= 3 && HasSize(lines)
    ensures info.header + Payload(lines) == lines
    ensures info.header == [info.magicNumber, lines[1], info.depth]
    ensures TwoNumbers(info.header[1]) == Some((info.width, info.height))
  {
    PpmInfo(Width(lines), Height(lines), lines[2], lines[0], lines[..3])
  }

  /** Reading back an encoded file gives the size and header lines it was written with. */
  lemma ExtractEncoded(width: nat, height: nat, pixels: seq<Rgb>)
    ensures |Encode(width, height, pixels)| >= 3 && HasSize(Encode(width, height, pixels))
    ensures var info := ExtractPpmData(Encode(width, height, pixels));
      && info.width == width && info.height == height
      && info.depth == "255\n" && info.magicNumber == "P3\n"
      && info.header == ["P3\n", Decimal(width) + " " + Decimal(height) + "\n", "255\n"]
  {
    EncodeSize(width, height, pixels);
  }

  // ---------------------------------------------------------------------------
  // create_blend_ppm, left to right

  /** A file whose header declares a width x height picture. */
  predicate Fits(lines: seq<string>, width: nat, height: nat) {
    |lines| >= 3 && HasSize(lines) && Width(lines) == width && Height(lines) == height
  }

  /** What the left-to-right blend needs of its files: at least one, all declaring the
      first file's size, each holding at least that many pixels, and a width of at
      least 1 unless there are no rows. */
  predicate SameSize(images: seq<seq<string>>) {
    && |images| >= 1 && HasSize(images[0])
    && (Height(images[0]) >= 1 ==> Width(images[0]) >= 1)
    && (forall j :: 0 <= j < |images| ==> Fits(images[j], Width(images[0]), Height(images[0])))
    && (MulLe(0, Width(images[0]), Height(images[0]));
        HoldPixels(Payloads(images), Width(images[0]) * Height(images[0])))
  }

  /** The channel lines after the header of every file, in order. */
  function Payloads(images: seq<seq<string>>): (payloads: seq<seq<string>>)
    ensures |payloads| == |images|
    ensures forall j :: 0 <= j < |images| ==> payloads[j] == Payload(images[j])
  {
    seq(|images|, j requires 0 <= j < |images| => Payload(images[j]))
  }

  /** Every payload holds at least `count` pixels. */
  predicate HoldPixels(payloads: seq<seq<string>>, count: nat) {
    forall j :: 0 <= j < |payloads| ==> 3 * count <= |payloads[j]|
  }

  /** ''.join(rgb) for pixel k of a payload: its three channel lines run together. */
  function PixelText(payload: seq<string>, k: nat): string
    requires 3 * k + 2 < |payload|
  {
    var p := Pixel(payload, k);
    p.r + p.g + p.b
  }

  /** Pixel k of the left-to-right blend of rows `width` pixels wide: the same pixel of
      the image whose band holds its column. */
  function BlendedPixel(payloads: seq<seq<string>>, width: nat, k: nat): string
    requires |payloads| >= 1 && width >= 1 && HoldPixels(payloads, k + 1)
  {
    var o := Owner(k % width, width, |payloads|);
    PixelText(payloads[o], k)
  }

  /** The first `count` pixels of the left-to-right blend, in row-major order. */
  function LeftRightPixels(payloads: seq<seq<string>>, width: nat, count: nat): seq<string>
    requires |payloads| >= 1 && (count >= 1 ==> width >= 1) && HoldPixels(payloads, count)
  {
    seq(count, k requires 0 <= k < count => BlendedPixel(payloads, width, k))
  }

  lemma LeftRightPixelsNext(payloads: seq<seq<string>>, width: nat, count: nat)
    requires |payloads| >= 1 && width >= 1 && HoldPixels(payloads, count + 1)
    ensures LeftRightPixels(payloads, width, count + 1) ==
      LeftRightPixels(payloads, width, count) + [BlendedPixel(payloads, width, count)]
  {
  }

  /** The left-to-right path of create_blend_ppm: the first file's header lines, then
      for every row the bands of the images in order. */
  method BlendLeftRight(images: seq<seq<string>>) returns (out: string)
    requires SameSize(images)
    ensures out == Join(images[0][..3] +
      LeftRightPixels(Payloads(images), Width(images[0]), Width(images[0]) * Height(images[0])))
  {
    var info := ExtractPpmData(images[0]);
    var datas := PixelDataOfAll(images);
    var newImageData := BlendRows(Payloads(images), datas, info.width, info.height, info.header);
    out := Join(newImageData);
  }

  /** get_pixel_data of every file, in order. */
  method PixelDataOfAll(images: seq<seq<string>>) returns (datas: seq<map<(int, int), Rgb>>)
    requires SameSize(images)
    ensures |datas| == |images|
    ensures forall j :: 0 <= j < |images| ==> GridMap(datas[j], Payload(images[j]), Width(images[0]))
  {
    datas := [];
    for j := 0 to |images|
      invariant |datas| == j
      invariant forall i :: 0 <= i < j ==> GridMap(datas[i], Payload(images[i]), Width(images[0]))
    {
      assert Fits(images[j], Width(images[0]), Height(images[0]));
      var d := GetPixelData(images[j]);
      datas := datas + [d];
    }
  }

  /** The row and image loops of the left-to-right path. */
  method BlendRows(ghost payloads: seq<seq<string>>, datas: seq<map<(int, int), Rgb>>,
                   width: nat, height: nat, header: seq<string>)
    returns (newImageData: seq<string>)
    requires |payloads| >= 1 && |datas| == |payloads| && (height >= 1 ==> width >= 1)
    requires forall j :: 0 <= j < |payloads| ==> GridMap(datas[j], payloads[j], width)
    requires HoldPixels(payloads, width * height)
    ensures newImageData == header + LeftRightPixels(payloads, width, width * height)
  {
    newImageData := header;
    var leftoff := 0;
    for row := 0 to height
      invariant leftoff == 0
      invariant row * width <= width * height
      invariant newImageData == header + LeftRightPixels(payloads, width, row * width)
    {
      RowFits(row, width, height);
      assert row * width + width == (row + 1) * width;
      newImageData, leftoff := BlendRow(payloads, datas, width, height, row, row * width, leftoff, header, newImageData);
    }
  }

  /** The image loop for one row.  leftoff is kept as a numerator over the number of
      images n: it starts the row at 0, and image i adds its band of the row (see
      BlendBand); after the last image it is back at 0. */
  method BlendRow(ghost payloads: seq<seq<string>>, datas: seq<map<(int, int), Rgb>>,
                  width: nat, height: nat, row: nat, start: nat, leftoff0: nat,
                  header: seq<string>, acc: seq<string>)
    returns (newImageData: seq<string>, leftoff: nat)
    requires |payloads| >= 1 && |datas| == |payloads| && width >= 1 && row < height
    requires start == row * width && start + width <= width * height && leftoff0 == 0
    requires forall j :: 0 <= j < |payloads| ==> GridMap(datas[j], payloads[j], width)
    requires HoldPixels(payloads, width * height)
    requires acc == header + LeftRightPixels(payloads, width, start)
    ensures leftoff == 0
    ensures newImageData == header + LeftRightPixels(payloads, width, start + width)
  {
    var n := |datas|;
    newImageData, leftoff := acc, leftoff0;
    CutEnds(width, n);
    for i := 0 to n
      invariant i < n ==> leftoff == i * width
      invariant i == n ==> leftoff == 0
      invariant Cut(i, width, n) <= width
      invariant newImageData == header + LeftRightPixels(payloads, width, start + Cut(i, width, n))
    {
      newImageData, leftoff := BlendBand(payloads, datas, width, height, row, start, i, leftoff, header, newImageData);
    }
  }

  /** One pass of the image loop, for image i: the column range from the marker, written
      with the reduction modulo w and modulo w + 1 as in the source, is image i's band
      floor(i * w / n) .. floor((i + 1) * w / n); the marker then moves on by w / n,
      modulo w, which brings it back to 0 after the last image. */
  method BlendBand(ghost payloads: seq<seq<string>>, datas: seq<map<(int, int), Rgb>>,
                   width: nat, height: nat, row: nat, start: nat, i: nat, leftoff0: nat,
                   header: seq<string>, acc: seq<string>)
    returns (newImageData: seq<string>, leftoff: nat)
    requires |datas| == |payloads| && i < |payloads| && width >= 1 && row < height
    requires start == row * width && start + width <= width * height && leftoff0 == i * width
    requires Cut(i, width, |payloads|) <= width
    requires forall j :: 0 <= j < |payloads| ==> GridMap(datas[j], payloads[j], width)
    requires HoldPixels(payloads, width * height)
    requires acc == header + LeftRightPixels(payloads, width, start + Cut(i, width, |payloads|))
    ensures Cut(i + 1, width, |payloads|) <= width
    ensures leftoff == if i + 1 < |payloads| then (i + 1) * width else 0
    ensures newImageData == header + LeftRightPixels(payloads, width, start + Cut(i + 1, width, |payloads|))
  {
    var n := |datas|;
    LeftoffStep(i, width, n, leftoff0);
    var lo, hi := (leftoff0 / n) % width, ((leftoff0 + width) / n) % (width + 1);
    newImageData := CopyBand(payloads, datas, width, height, row, start, i, lo, hi, header, acc);
    leftoff := (leftoff0 + width) % (width * n);
  }

  /** The innermost loop of the left-to-right path: the pixels of columns lo .. hi - 1
      of a row, image i's band, taken from image i's pixel map.  `start` is the index
      of the row's first pixel. */
  method CopyBand(ghost payloads: seq<seq<string>>, datas: seq<map<(int, int), Rgb>>,
                  width: nat, height: nat, row: nat, start: nat, i: nat, lo: nat, hi: nat,
                  header: seq<string>, acc: seq<string>)
    returns (newImageData: seq<string>)
    requires |datas| == |payloads| && i < |payloads| && row < height && start == row * width
    requires forall j :: 0 <= j < |payloads| ==> GridMap(datas[j], payloads[j], width)
    requires HoldPixels(payloads, width * height)
    requires lo == Cut(i, width, |payloads|) && hi == Cut(i + 1, width, |payloads|)
    requires lo <= hi && start + hi <= width * height
    requires acc == header + LeftRightPixels(payloads, width, start + lo)
    ensures newImageData == header + LeftRightPixels(payloads, width, start + hi)
  {
    newImageData := acc;
    var d := datas[i];
    for column := lo to hi
      invariant newImageData == header + LeftRightPixels(payloads, width, start + column)
    {
      newImageData := CopyPixel(payloads, d, width, height, row, start, i, column, header, newImageData);
    }
  }

  /** One step of the innermost loop: the pixel at (row, column) of image i's map. */
  method CopyPixel(ghost payloads: seq<seq<string>>, d: map<(int, int), Rgb>,
                   width: nat, height: nat, row: nat, start: nat, i: nat, column: nat,
                   header: seq<string>, acc: seq<string>)
    returns (newImageData: seq<string>)
    requires i < |payloads| && GridMap(d, payloads[i], width) && row < height && start == row * width
    requires HoldPixels(payloads, width * height) && start + column < width * height
    requires Cut(i, width, |payloads|) <= column < Cut(i + 1, width, |payloads|)
    requires acc == header + LeftRightPixels(payloads, width, start + column)
    ensures newImageData == header + LeftRightPixels(payloads, width, start + column + 1)
  {
    BandPixel(payloads, width, height, i, row, column);
    PixelAt(d, payloads[i], width, height, row, column);
    LeftRightPixelsNext(payloads, width, start + column);
    var rgb := d[(row, column)];
    newImageData := acc + [rgb.r + rgb.g + rgb.b];
  }

  /** Row `row` of the grid ends inside the grid. */
  lemma RowFits(row: nat, width: nat, height: nat)
    requires row < height
    ensures (row + 1) * width <= width * height
  {
    MulLe(row + 1, height, width);
  }

  /** Inside band i of a row, the blended pixel is image i's pixel. */
  lemma BandPixel(payloads: seq<seq<string>>, width: nat, height: nat, i: nat, row: nat, column: nat)
    requires i < |payloads| && HoldPixels(payloads, width * height)
    requires row * width + column < width * height
    requires Cut(i, width, |payloads|) <= column < Cut(i + 1, width, |payloads|)
    ensures column < width
    ensures BlendedPixel(payloads, width, row * width + column) == PixelText(payloads[i], row * width + column)
  {
    OwnerUnique(i, column, width, |payloads|);
    KeyOf(row, column, width);
  }

  // ---------------------------------------------------------------------------
  // Properties of the left-to-right blend

  /** The first `count` pixels of one payload, each as ''.join(rgb). */
  function PlainPixels(payload: seq<string>, count: nat): seq<string>
    requires 3 * count <= |payload|
  {
    seq(count, k requires 0 <= k < count => PixelText(payload, k))
  }

  /** Blending copies of one picture left to right gives that picture's pixels. */
  lemma BlendOfCopies(payloads: seq<seq<string>>, width: nat, count: nat)
    requires |payloads| >= 1 && (count >= 1 ==> width >= 1) && HoldPixels(payloads, count)
    requires forall j :: 0 <= j < |payloads| ==> payloads[j] == payloads[0]
    ensures LeftRightPixels(payloads, width, count) == PlainPixels(payloads[0], count)
  {
  }

  /** Running the pixels of a payload together gives its channel lines run together. */
  lemma {:induction false} JoinPlainPixels(payload: seq<string>, count: nat)
    requires 3 * count <= |payload|
    ensures Join(PlainPixels(payload, count)) == Join(payload[..3 * count])
  {
    if count > 0 {
      var c := count - 1;
      JoinPlainPixels(payload, c);
      assert PlainPixels(payload, count) == PlainPixels(payload, c) + [PixelText(payload, c)];
      JoinAppend(PlainPixels(payload, c), [PixelText(payload, c)]);
      var last := [payload[3 * c], payload[3 * c + 1], payload[3 * c + 2]];
      assert payload[..3 * count] == payload[..3 * c] + last;
      JoinAppend(payload[..3 * c], last);
      JoinThree(payload[3 * c], payload[3 * c + 1], payload[3 * c + 2]);
      assert Join([PixelText(payload, c)]) == PixelText(payload, c) + Join([]);
    }
  }

  /** Blending copies of one complete file left to right writes that file back. */
  lemma LeftRightOfCopies(images: seq<seq<string>>)
    requires SameSize(images) && forall j :: 0 <= j < |images| ==> images[j] == images[0]
    requires |Payload(images[0])| == 3 * (Width(images[0]) * Height(images[0]))
    ensures Join(images[0][..3] +
      LeftRightPixels(Payloads(images), Width(images[0]), Width(images[0]) * Height(images[0])))
      == Join(images[0])
  {
    var w, h := Width(images[0]), Height(images[0]);
    var p := Payload(images[0]);
    BlendOfCopies(Payloads(images), w, w * h);
    JoinPlainPixels(p, w * h);
    JoinAppend(images[0][..3], PlainPixels(p, w * h));
    JoinAppend(images[0][..3], p);
    assert images[0] == images[0][..3] + p;
    assert p[..3 * (w * h)] == p;
  }

  // ---------------------------------------------------------------------------
  // create_blend_ppm

  /** create_blend_ppm: the left-to-right or the top-to-bottom path. */
  method CreateBlendPpm(images: seq<seq<string>>, leftRight: bool) returns (out: string)
    requires leftRight ==> SameSize(images)
    ensures leftRight ==> out == Join(images[0][..3] +
      LeftRightPixels(Payloads(images), Width(images[0]), Width(images[0]) * Height(images[0])))
    ensures !leftRight ==> out == Join(TopDownLines(images, |images|))
  {
    if leftRight {
      out := BlendLeftRight(images);
    } else {
      out := BlendTopDown(images);
    }
  }

  // ---------------------------------------------------------------------------
  // create_blend_ppm, top to bottom

  /** How many lines the files before file m hold together. */
  function LinesBefore(images: seq<seq<string>>, m: nat): nat
    requires m <= |images|
  {
    if m == 0 then 0 else LinesBefore(images, m - 1) + |images[m - 1]|
  }

  /** What the top-to-bottom path takes from file m.  leftoff is the sum of the earlier
      files' line counts divided by the number of files n, so the slice
      lines[int(leftoff):int(leftoff + len(lines) / n)] runs from floor(before / n) to
      floor((before + len) / n), clamped to the file as Python clamps it. */
  function TopDownChunk(images: seq<seq<string>>, m: nat): seq<string>
    requires m < |images|
  {
    var before := LinesBefore(images, m);
    Slice(images[m], before / |images|, (before + |images[m]|) / |images|)
  }

  /** The chunks of files 0 .. m-1, in order. */
  function TopDownLines(images: seq<seq<string>>, m: nat): seq<string>
    requires m <= |images|
  {
    if m == 0 then [] else TopDownLines(images, m - 1) + TopDownChunk(images, m - 1)
  }

  /** The top-to-bottom path of create_blend_ppm: a chunk of lines from every file, the
      header lines counted like any other line.  No file is required: with none the
      loop does not run and the result is empty. */
  method BlendTopDown(images: seq<seq<string>>) returns (out: string)
    ensures out == Join(TopDownLines(images, |images|))
  {
    var n := |images|;
    var newImageData: seq<string> := [];
    var leftoff: nat := 0;
    for i := 0 to n
      invariant leftoff == LinesBefore(images, i)
      invariant newImageData == TopDownLines(images, i)
    {
      var lines := images[i];
      DivLower(0, leftoff, n);
      DivLower(0, leftoff + |lines|, n);
      newImageData := newImageData + Slice(lines, leftoff / n, (leftoff + |lines|) / n);
      leftoff := leftoff + |lines|;
    }
    out := Join(newImageData);
  }

  /** Files of `length` lines each, or of at least `length` lines. */
  predicate AllLong(ps: seq<seq<string>>, length: nat) {
    forall j :: 0 <= j < |ps| ==> |ps[j]| >= length
  }

  /** Horizontal bands of `unit`-line blocks: of `extent` blocks, file i gives blocks
      Cut(i) .. Cut(i+1) - 1, for i < m. */
  function BandLines(ps: seq<seq<string>>, unit: nat, extent: nat, m: nat): seq<string>
    requires 1 <= |ps| && m <= |ps| && AllLong(ps, unit * extent)
  {
    if m == 0 then []
    else
      CutInside(m - 1, extent, |ps|);
      CutMonotone(m - 1, m, extent, |ps|);
      BandBounds(unit, Cut(m - 1, extent, |ps|), Cut(m, extent, |ps|), extent);
      BandLines(ps, unit, extent, m - 1)
        + ps[m - 1][unit * Cut(m - 1, extent, |ps|)..unit * Cut(m, extent, |ps|)]
  }

  lemma BandBounds(unit: nat, a: nat, b: nat, extent: nat)
    requires a <= b <= extent
    ensures unit * a <= unit * b <= unit * extent
  {
    MulLe(a, b, unit);
    MulLe(b, extent, unit);
  }

  /** Block t / unit, the block line t belongs to. */
  function Block(t: nat, unit: nat): (b: nat)
    requires unit >= 1
    ensures unit * b <= t < unit * b + unit
  {
    DivLower(0, t, unit);
    t / unit
  }

  /** The first m bands hold unit * Cut(m) lines, and line t of them comes from the file
      whose band holds block t / unit. */
  lemma {:induction false} BandLinesAt(ps: seq<seq<string>>, unit: nat, extent: nat, m: nat)
    requires 1 <= |ps| && m <= |ps| && AllLong(ps, unit * extent) && unit >= 1
    ensures |BandLines(ps, unit, extent, m)| == unit * Cut(m, extent, |ps|) <= unit * extent
    ensures forall t :: 0 <= t < |BandLines(ps, unit, extent, m)| ==>
      Block(t, unit) < extent && BandLines(ps, unit, extent, m)[t] == ps[Owner(Block(t, unit), extent, |ps|)][t]
  {
    if m == 0 {
      CutEnds(extent, |ps|);
    } else {
      BandLinesAt(ps, unit, extent, m - 1);
      BandLinesLast(ps, unit, extent, m);
    }
  }

  /** Band m - 1 keeps the earlier lines and adds lines from file m - 1 only. */
  lemma BandLinesLast(ps: seq<seq<string>>, unit: nat, extent: nat, m: nat)
    requires 1 <= m <= |ps| && AllLong(ps, unit * extent) && unit >= 1
    requires |BandLines(ps, unit, extent, m - 1)| == unit * Cut(m - 1, extent, |ps|)
    ensures |BandLines(ps, unit, extent, m)| == unit * Cut(m, extent, |ps|) <= unit * extent
    ensures forall t :: 0 <= t < |BandLines(ps, unit, extent, m - 1)| ==>
      BandLines(ps, unit, extent, m)[t] == BandLines(ps, unit, extent, m - 1)[t]
    ensures forall t :: |BandLines(ps, unit, extent, m - 1)| <= t < |BandLines(ps, unit, extent, m)| ==>
      Block(t, unit) < extent && BandLines(ps, unit, extent, m)[t] == ps[Owner(Block(t, unit), extent, |ps|)][t]
  {
    var n := |ps|;
    var a, b := Cut(m - 1, extent, n), Cut(m, extent, n);
    var lo, hi := BandStep(ps, unit, extent, m);
    var prev, all := BandLines(ps, unit, extent, m - 1), BandLines(ps, unit, extent, m);
    forall t | lo <= t < hi
      ensures Block(t, unit) < extent && all[t] == ps[Owner(Block(t, unit), extent, n)][t]
    {
      assert all[t] == ps[m - 1][t];
      BlockOf(t, unit, a, b);
      OwnerUnique(m - 1, Block(t, unit), extent, n);
    }
  }

  /** Unfolding BandLines once: band m - 1 is lines lo .. hi - 1 of file m - 1, where
      lo and hi are the band's edges in lines. */
  lemma BandStep(ps: seq<seq<string>>, unit: nat, extent: nat, m: nat) returns (lo: nat, hi: nat)
    requires 1 <= m <= |ps| && AllLong(ps, unit * extent) && unit >= 1
    requires |BandLines(ps, unit, extent, m - 1)| == unit * Cut(m - 1, extent, |ps|)
    ensures lo == unit * Cut(m - 1, extent, |ps|) && hi == unit * Cut(m, extent, |ps|)
    ensures Cut(m - 1, extent, |ps|) <= Cut(m, extent, |ps|) <= extent && lo <= hi <= unit * extent
    ensures BandLines(ps, unit, extent, m) == BandLines(ps, unit, extent, m - 1) + ps[m - 1][lo..hi]
    ensures |BandLines(ps, unit, extent, m)| == hi
    ensures forall t :: lo <= t < hi ==> BandLines(ps, unit, extent, m)[t] == ps[m - 1][t]
  {
    var n := |ps|;
    CutInside(m - 1, extent, n);
    CutMonotone(m - 1, m, extent, n);
    BandBounds(unit, Cut(m - 1, extent, n), Cut(m, extent, n), extent);
    lo, hi := unit * Cut(m - 1, extent, n), unit * Cut(m, extent, n);
  }

  /** A line between unit * a and unit * b lies in a block between a and b. */
  lemma BlockOf(t: nat, unit: nat, a: nat, b: nat)
    requires unit >= 1 && unit * a <= t < unit * b
    ensures a <= Block(t, unit) < b
  {
    DivLower(a, t, unit);
    DivUpper(b, t, unit);
  }

  /** When every file has the same number of lines L, the top-to-bottom path cuts the
      L lines into n proportional bands of single lines: line k of the result is line k
      of the file whose band holds k, header lines included. */
  lemma TopDownUniform(images: seq<seq<string>>, length: nat)
    requires |images| >= 1 && forall j :: 0 <= j < |images| ==> |images[j]| == length
    ensures TopDownLines(images, |images|) == BandLines(images, 1, length, |images|)
    ensures |TopDownLines(images, |images|)| == length
    ensures forall k :: 0 <= k < length ==>
      TopDownLines(images, |images|)[k] == images[Owner(k, length, |images|)][k]
  {
    TopDownUniformUpTo(images, length, |images|);
    BandLinesAt(images, 1, length, |images|);
    CutEnds(length, |images|);
  }

  lemma {:induction false} TopDownUniformUpTo(images: seq<seq<string>>, length: nat, m: nat)
    requires |images| >= 1 && m <= |images| && forall j :: 0 <= j < |images| ==> |images[j]| == length
    ensures TopDownLines(images, m) == BandLines(images, 1, length, m)
  {
    if m > 0 {
      TopDownUniformUpTo(images, length, m - 1);
      UniformLinesBefore(images, length, m - 1);
      UniformChunk(images, length, m - 1);
      SingleLineBandsNext(images, length, m);
    }
  }

  /** With files of equal length, the files before file m hold m * length lines. */
  lemma {:induction false} UniformLinesBefore(images: seq<seq<string>>, length: nat, m: nat)
    requires m <= |images| && forall j :: 0 <= j < |images| ==> |images[j]| == length
    ensures LinesBefore(images, m) == m * length
  {
    if m > 0 {
      UniformLinesBefore(images, length, m - 1);
      assert |images[m - 1]| == length;
      assert (m - 1) * length + length == m * length;
    }
  }

  /** With files of equal length, chunk m is band m of single lines. */
  lemma UniformChunk(images: seq<seq<string>>, length: nat, m: nat)
    requires m < |images| && forall j :: 0 <= j < |images| ==> |images[j]| == length
    requires LinesBefore(images, m) == m * length
    ensures Cut(m, length, |images|) <= Cut(m + 1, length, |images|) <= length
    ensures TopDownChunk(images, m) == images[m][Cut(m, length, |images|)..Cut(m + 1, length, |images|)]
  {
    var n := |images|;
    assert |images[m]| == length;
    assert m * length + length == (m + 1) * length;
    CutInside(m, length, n);
    CutMonotone(m, m + 1, length, n);
  }

  lemma SingleLineBandsNext(ps: seq<seq<string>>, extent: nat, m: nat)
    requires 1 <= m <= |ps| && AllLong(ps, extent)
    ensures Cut(m - 1, extent, |ps|) <= Cut(m, extent, |ps|) <= |ps[m - 1]|
    ensures BandLines(ps, 1, extent, m) ==
      BandLines(ps, 1, extent, m - 1) + ps[m - 1][Cut(m - 1, extent, |ps|)..Cut(m, extent, |ps|)]
  {
    CutInside(m - 1, extent, |ps|);
    CutMonotone(m - 1, m, extent, |ps|);
    assert AllLong(ps, 1 * extent);
  }

  /** Blending copies of one file, top to bottom, gives that file back. */
  lemma TopDownOfCopies(images: seq<seq<string>>)
    requires |images| >= 1 && forall j :: 0 <= j < |images| ==> images[j] == images[0]
    ensures TopDownLines(images, |images|) == images[0]
  {
    TopDownUniform(images, |images[0]|);
  }

  /** Two valid 2 x 1 files of nine lines each. */
  function TwoPixelFile(first: string, rest: seq<string>): seq<string> {
    ["P3\n", "2 1\n", "255\n", first] + rest
  }

  /** As written, the top-to-bottom cut falls at line floor(9 / 2) = 4 of two nine-line
      files: the blend's first pixel takes its red line from the first file and its green
      and blue lines from the second, a pixel neither file has. */
  lemma TopDownSplitsPixel()
    ensures var a := TwoPixelFile("1\n", ["2\n", "3\n", "4\n", "5\n", "6\n"]);
      var b := TwoPixelFile("7\n", ["8\n", "9\n", "10\n", "11\n", "12\n"]);
      var out := TopDownLines([a, b], 2);
      && |out| == 9 && out[3..6] == ["1\n", "8\n", "9\n"]
      && out[3..6] != a[3..6] && out[3..6] != b[3..6]
  {
    var a := TwoPixelFile("1\n", ["2\n", "3\n", "4\n", "5\n", "6\n"]);
    var b := TwoPixelFile("7\n", ["8\n", "9\n", "10\n", "11\n", "12\n"]);
    assert |a| == 9 && |b| == 9;
    assert TopDownChunk([a, b], 0) == a[..4];
    assert TopDownLines([a, b], 1) == a[..4];
    assert LinesBefore([a, b], 1) == 9;
    assert TopDownChunk([a, b], 1) == b[4..];
    var out := TopDownLines([a, b], 2);
    assert out == a[..4] + b[4..];
    assert out[3] == a[3] && out[4] == b[4] && out[5] == b[5];
    assert out[3..6] == [a[3], b[4], b[5]];
    assert a[3..6][1] == "2\n" && b[3..6][0] == "7\n";
  }

  /** The top-to-bottom blend as its documentation describes it: the header of the first
      file, then whole rows, the first n-th of the rows from the first file and so on;
      image i gives rows floor(i * h / n) .. floor((i + 1) * h / n) - 1. */
  method BlendTopDownRows(images: seq<seq<string>>) returns (out: string)
    requires SameSize(images)
    ensures var w, h := Width(images[0]), Height(images[0]);
      && AllLong(Payloads(images), 3 * w * h)
      && out == Join(images[0][..3] + BandLines(Payloads(images), 3 * w, h, |images|))
  {
    var info := ExtractPpmData(images[0]);
    SameSizeLong(images);
    var newImageData := CopyRows(images, info.width, info.height, info.header);
    out := Join(newImageData);
  }

  /** Files of the same size hold their header and the declared pixels. */
  lemma SameSizeLong(images: seq<seq<string>>)
    requires SameSize(images)
    ensures AllLong(images, 3)
    ensures AllLong(Payloads(images), 3 * Width(images[0]) * Height(images[0]))
  {
    var w, h := Width(images[0]), Height(images[0]);
    assert 3 * w * h == 3 * (w * h);
    forall j | 0 <= j < |images|
      ensures |images[j]| >= 3
    {
      assert Fits(images[j], w, h);
    }
  }

  /** The image loop of the row-aligned blend. */
  method CopyRows(images: seq<seq<string>>, width: nat, height: nat, header: seq<string>)
    returns (newImageData: seq<string>)
    requires |images| >= 1 && AllLong(images, 3) && AllLong(Payloads(images), 3 * width * height)
    ensures newImageData == header + BandLines(Payloads(images), 3 * width, height, |images|)
  {
    var n := |images|;
    newImageData := header;
    for i := 0 to n
      invariant newImageData == header + BandLines(Payloads(images), 3 * width, height, i)
    {
      var top, bottom := Cut(i, height, n), Cut(i + 1, height, n);
      RowBandsNext(images, width, height, i);
      newImageData := newImageData + images[i][3 + 3 * width * top..3 + 3 * width * bottom];
    }
  }

  /** Band i of whole rows, read straight from file i. */
  lemma RowBandsNext(images: seq<seq<string>>, width: nat, height: nat, i: nat)
    requires i < |images| && AllLong(images, 3) && AllLong(Payloads(images), 3 * width * height)
    ensures 0 <= 3 * width * Cut(i, height, |images|) <= 3 * width * Cut(i + 1, height, |images|)
    ensures 3 + 3 * width * Cut(i + 1, height, |images|) <= |images[i]|
    ensures BandLines(Payloads(images), 3 * width, height, i + 1) ==
      BandLines(Payloads(images), 3 * width, height, i)
      + images[i][3 + 3 * width * Cut(i, height, |images|)..3 + 3 * width * Cut(i + 1, height, |images|)]
  {
    var n := |images|;
    var ps := Payloads(images);
    CutInside(i, height, n);
    CutMonotone(i, i + 1, height, n);
    var lo, hi := Cut(i, height, n), Cut(i + 1, height, n);
    BandBounds(3 * width, lo, hi, height);
    MulLe(0, lo, 3 * width);
    assert |ps[i]| >= 3 * width * height;
    assert ps[i] == images[i][3..];
    assert ps[i][3 * width * lo..3 * width * hi] == images[i][3 + 3 * width * lo..3 + 3 * width * hi];
  }

  /** In the row-aligned blend every pixel is whole: its three channel lines are the same
      pixel of the one file whose band holds its row. */
  lemma RowBandsKeepPixels(ps: seq<seq<string>>, width: nat, height: nat, k: nat)
    requires 1 <= |ps| && AllLong(ps, 3 * width * height) && k < width * height
    ensures width >= 1 && Block(k, width) < height
    ensures var o := Owner(Block(k, width), height, |ps|);
      && 3 * k + 2 < |BandLines(ps, 3 * width, height, |ps|)| && 3 * k + 2 < |ps[o]|
      && BandLines(ps, 3 * width, height, |ps|)[3 * k..3 * k + 3] == ps[o][3 * k..3 * k + 3]
  {
    var n := |ps|;
    var all := BandLines(ps, 3 * width, height, n);
    BandLinesAt(ps, 3 * width, height, n);
    CutEnds(height, n);
    PixelRow(k, width, height);
    var o := Owner(Block(k, width), height, n);
    assert all[3 * k] == ps[o][3 * k];
    assert all[3 * k + 1] == ps[o][3 * k + 1];
    assert all[3 * k + 2] == ps[o][3 * k + 2];
  }

  /** The three channel lines of pixel k lie in the block of 3 * width lines of k's row. */
  lemma PixelRow(k: nat, width: nat, height: nat)
    requires k < width * height
    ensures width >= 1 && Block(k, width) < height && 3 * k + 2 < 3 * width * height
    ensures Block(3 * k, 3 * width) == Block(k, width)
    ensures Block(3 * k + 1, 3 * width) == Block(k, width)
    ensures Block(3 * k + 2, 3 * width) == Block(k, width)
  {
    assert width >= 1;
    var row := Block(k, width);
    DivUpper(height, k, width);
    assert 3 * width * row <= 3 * k && 3 * k + 3 <= 3 * width * (row + 1);
    BlockOf(3 * k, 3 * width, row, row + 1);
    BlockOf(3 * k + 1, 3 * width, row, row + 1);
    BlockOf(3 * k + 2, 3 * width, row, row + 1);
  }

  // ---------------------------------------------------------------------------
  // create_blend_generic

  /** Pictures of one size, at least one of them. */
  predicate SamePictures<P>(images: seq<Picture<P>>) {
    && |images| >= 1
    && forall j :: 0 <= j < |images| ==>
         images[j].Valid() && images[j].width == images[0].width && images[j].height == images[0].height
  }

  /** The length of the axis the blend cuts: the width left to right, the height top to
      bottom. */
  function Extent<P>(images: seq<Picture<P>>, leftRight: bool): nat
    requires |images| >= 1
  {
    if leftRight then images[0].width else images[0].height
  }

  /** Where (x, y) lies along that axis. */
  function Along(leftRight: bool, x: nat, y: nat): nat {
    if leftRight then x else y
  }

  /** The part of a picture between lo and hi along the axis, the full other way. */
  function Band<P>(pic: Picture<P>, leftRight: bool, lo: nat, hi: nat): (part: Picture<P>)
    requires pic.Valid() && lo <= hi <= (if leftRight then pic.width else pic.height)
  {
    if leftRight then Crop(pic, lo, 0, hi, pic.height) else Crop(pic, 0, lo, pic.width, hi)
  }

  /** Pixel (x, y) of the generic blend: with c = int(extent / n), the pixel of image
      pos / c when pos = Along(x, y) lies in the first n * c units, the new image's
      colour otherwise. */
  function GenericPixel<P>(images: seq<Picture<P>>, leftRight: bool, background: P, x: nat, y: nat): P
    requires SamePictures(images) && x < images[0].width && y < images[0].height
  {
    var n := |images|;
    var c := BandWidth(Extent(images, leftRight), n);
    var pos := Along(leftRight, x, y);
    if pos < n * c then
      DivUpper(n, pos, c);
      DivLower(0, pos, c);
      images[pos / c].At(x, y)
    else background
  }

  /** The picture agrees with the generic blend in the first `upto` units of the axis and
      shows the background beyond. */
  ghost predicate PastedUpTo<P>(pic: Picture<P>, images: seq<Picture<P>>, leftRight: bool, background: P, upto: nat)
    requires SamePictures(images)
  {
    && pic.Valid() && pic.width == images[0].width && pic.height == images[0].height
    && upto <= |images| * BandWidth(Extent(images, leftRight), |images|)
    && forall x, y :: 0 <= x < pic.width && 0 <= y < pic.height ==>
         pic.At(x, y) == if Along(leftRight, x, y) < upto then GenericPixel(images, leftRight, background, x, y)
                         else background
  }

  /** create_blend_generic: every image is cropped to its band, c = int(extent / n) units
      wide, and the bands are pasted in order into a new image of the first image's size.
      The crop and paste boxes are computed as the source computes them. */
  method CreateBlendGeneric<P>(images: seq<Picture<P>>, leftRight: bool, background: P)
    returns (newImg: Picture<P>)
    requires SamePictures(images) && Extent(images, leftRight) >= 1
    ensures newImg.Valid() && newImg.width == images[0].width && newImg.height == images[0].height
    ensures forall x, y :: 0 <= x < newImg.width && 0 <= y < newImg.height ==>
      newImg.At(x, y) == GenericPixel(images, leftRight, background, x, y)
  {
    var croppedjpgs := CropBands(images, leftRight);
    newImg := PasteBands(images, croppedjpgs, leftRight, background);
    var n, c := |images|, BandWidth(Extent(images, leftRight), |images|);
    forall x, y | 0 <= x < newImg.width && 0 <= y < newImg.height
      ensures newImg.At(x, y) == GenericPixel(images, leftRight, background, x, y)
    {
      if Along(leftRight, x, y) >= n * c {
      }
    }
  }

  /** The crop loop: image i cropped to units i * c .. (i + 1) * c of the axis. */
  method CropBands<P>(images: seq<Picture<P>>, leftRight: bool) returns (croppedjpgs: seq<Picture<P>>)
    requires SamePictures(images) && Extent(images, leftRight) >= 1
    ensures |croppedjpgs| == |images|
    ensures forall j :: 0 <= j < |images| ==> CroppedBand(images, leftRight, croppedjpgs[j], j)
  {
    var n := |images|;
    ghost var c := BandWidth(Extent(images, leftRight), n);
    croppedjpgs := [];
    var leftoff := 0;
    for i := 0 to n
      invariant |croppedjpgs| == i
      invariant i < n ==> leftoff == i * c
      invariant forall j :: 0 <= j < i ==> CroppedBand(images, leftRight, croppedjpgs[j], j)
    {
      var part;
      part, leftoff := CropOne(images, leftRight, i, leftoff);
      croppedjpgs := croppedjpgs + [part];
    }
  }

  /** One turn of the crop loop: the crop box from leftoff, and leftoff moved on by c
      modulo the extent. */
  method CropOne<P>(images: seq<Picture<P>>, leftRight: bool, i: nat, leftoff: nat)
    returns (part: Picture<P>, next: nat)
    requires SamePictures(images) && Extent(images, leftRight) >= 1 && i < |images|
    requires leftoff == i * BandWidth(Extent(images, leftRight), |images|)
    ensures CroppedBand(images, leftRight, part, i)
    ensures i + 1 < |images| ==> next == (i + 1) * BandWidth(Extent(images, leftRight), |images|)
  {
    var n := |images|;
    var w, h := images[0].width, images[0].height;
    var cW, cH := w / n, h / n;
    EvenBoxEnd(i, Extent(images, leftRight), n);
    EvenBandsFit(i + 1, Extent(images, leftRight), n);
    assert images[i].Valid() && images[i].width == w && images[i].height == h;
    if leftRight {
      part := Crop(images[i], leftoff, 0, (leftoff + cW) % (w + 1), h);
      if i + 1 < n {
        EvenLeftoffAdvance(i, w, n);
      }
      next := (leftoff + cW) % w;
    } else {
      part := Crop(images[i], 0, leftoff, w, (leftoff + cH) % (h + 1));
      if i + 1 < n {
        EvenLeftoffAdvance(i, h, n);
      }
      next := (leftoff + cH) % h;
    }
  }

  /** Image j's band, c units along the axis starting at j * c. */
  ghost predicate CroppedBand<P>(images: seq<Picture<P>>, leftRight: bool, part: Picture<P>, j: nat)
    requires SamePictures(images) && j < |images|
  {
    var c := BandWidth(Extent(images, leftRight), |images|);
    EvenBandsFit(j + 1, Extent(images, leftRight), |images|);
    MulLe(j, j + 1, c);
    part == Band(images[j], leftRight, j * c, (j + 1) * c)
  }

  /** The paste loop: band i pasted at units i * c .. (i + 1) * c of a new image. */
  method PasteBands<P>(images: seq<Picture<P>>, croppedjpgs: seq<Picture<P>>, leftRight: bool, background: P)
    returns (newImg: Picture<P>)
    requires SamePictures(images) && Extent(images, leftRight) >= 1 && |croppedjpgs| == |images|
    requires forall j :: 0 <= j < |images| ==> CroppedBand(images, leftRight, croppedjpgs[j], j)
    ensures PastedUpTo(newImg, images, leftRight, background, |images| * BandWidth(Extent(images, leftRight), |images|))
  {
    var n := |images|;
    var w, h := images[0].width, images[0].height;
    var cW, cH := w / n, h / n;
    ghost var c := BandWidth(Extent(images, leftRight), n);
    newImg := NewImage(w, h, background);
    EvenBandsFit(0, Extent(images, leftRight), n);
    var leftoff := 0;
    for i := 0 to n
      invariant i < n ==> leftoff == i * c
      invariant PastedUpTo(newImg, images, leftRight, background, i * c)
    {
      EvenBoxEnd(i, Extent(images, leftRight), n);
      if leftRight {
        PasteStep(images, croppedjpgs[i], leftRight, background, newImg, i, leftoff, (leftoff + cW) % (w + 1));
        newImg := Paste(newImg, croppedjpgs[i], leftoff, 0, (leftoff + cW) % (w + 1), h);
        if i + 1 < n {
          EvenLeftoffAdvance(i, w, n);
        }
        leftoff := (leftoff + cW) % w;
      } else {
        FloorShift(leftoff, h, n);
        PasteStep(images, croppedjpgs[i], leftRight, background, newImg, i, leftoff, ((leftoff * n + h) / n) % (h + 1));
        newImg := Paste(newImg, croppedjpgs[i], 0, leftoff, w, ((leftoff * n + h) / n) % (h + 1));
        if i + 1 < n {
          EvenLeftoffAdvance(i, h, n);
        }
        leftoff := (leftoff + cH) % h;
      }
    }
  }

  /** Pasting band i into its box, units lo = i * c .. hi = (i + 1) * c of the axis,
      extends the agreement from lo to hi units. */
  lemma PasteStep<P>(images: seq<Picture<P>>, part: Picture<P>, leftRight: bool, background: P,
                     pic: Picture<P>, i: nat, lo: nat, hi: nat)
    requires SamePictures(images) && i < |images| && CroppedBand(images, leftRight, part, i)
    requires lo == i * BandWidth(Extent(images, leftRight), |images|)
    requires hi == (i + 1) * BandWidth(Extent(images, leftRight), |images|)
    requires PastedUpTo(pic, images, leftRight, background, lo)
    ensures lo <= hi <= Extent(images, leftRight)
    ensures leftRight ==> PastedUpTo(Paste(pic, part, lo, 0, hi, images[0].height), images, leftRight, background, hi)
    ensures !leftRight ==> PastedUpTo(Paste(pic, part, 0, lo, images[0].width, hi), images, leftRight, background, hi)
  {
    var n := |images|;
    var c := BandWidth(Extent(images, leftRight), n);
    var w, h := images[0].width, images[0].height;
    EvenBandsFit(i + 1, Extent(images, leftRight), n);
    MulLe(i, i + 1, c);
    assert hi == lo + c;
    var out := if leftRight then Paste(pic, part, lo, 0, hi, h) else Paste(pic, part, 0, lo, w, hi);
    forall x, y | 0 <= x < w && 0 <= y < h
      ensures out.At(x, y) == if Along(leftRight, x, y) < hi then GenericPixel(images, leftRight, background, x, y)
                              else background
    {
      var pos := Along(leftRight, x, y);
      if lo <= pos < hi {
        DivUnique(i, pos, c);
        assert pos < n * c;
      }
    }
  }

  /** Inside band i, units i * c .. (i + 1) * c - 1, the generic blend shows image i. */
  lemma GenericBandOwner<P>(images: seq<Picture<P>>, leftRight: bool, background: P, i: nat, x: nat, y: nat)
    requires SamePictures(images) && i < |images| && x < images[0].width && y < images[0].height
    requires var c := BandWidth(Extent(images, leftRight), |images|);
      i * c <= Along(leftRight, x, y) < (i + 1) * c
    ensures GenericPixel(images, leftRight, background, x, y) == images[i].At(x, y)
  {
    var c := BandWidth(Extent(images, leftRight), |images|);
    var pos := Along(leftRight, x, y);
    assert (i + 1) * c == i * c + c;
    DivUnique(i, pos, c);
    MulLe(i + 1, |images|, c);
  }

  /** The last extent mod n units of the axis are never pasted: they keep the new
      image's colour whatever the images hold. */
  lemma GenericLeftover<P>(images: seq<Picture<P>>, leftRight: bool, background: P, x: nat, y: nat)
    requires SamePictures(images) && x < images[0].width && y < images[0].height
    requires Along(leftRight, x, y) >= Extent(images, leftRight) - Extent(images, leftRight) % |images|
    ensures GenericPixel(images, leftRight, background, x, y) == background
  {
    EvenBandsFit(|images|, Extent(images, leftRight), |images|);
  }

  /** Two 3 x 1 pictures blended left to right: c = 1, and column 2 belongs to neither. */
  lemma GenericLeavesStrip<P>(a: P, b: P, background: P)
    ensures var images := [Picture(3, 1, [[a, a, a]]), Picture(3, 1, [[b, b, b]])];
      && SamePictures(images)
      && GenericPixel(images, true, background, 0, 0) == a
      && GenericPixel(images, true, background, 1, 0) == b
      && GenericPixel(images, true, background, 2, 0) == background
  {
    var images := [Picture(3, 1, [[a, a, a]]), Picture(3, 1, [[b, b, b]])];
    assert SamePictures(images);
    assert BandWidth(Extent(images, true), 2) == 1;
  }

  /** The generic blend with proportional bands, as the plain-PPM blend cuts them: image i
      gives units floor(i * extent / n) .. floor((i + 1) * extent / n) - 1, and together
      the bands cover the whole axis. */
  method CreateBlendGenericCovering<P>(images: seq<Picture<P>>, leftRight: bool, background: P)
    returns (newImg: Picture<P>)
    requires SamePictures(images)
    ensures newImg.Valid() && newImg.width == images[0].width && newImg.height == images[0].height
    ensures forall x, y :: 0 <= x < newImg.width && 0 <= y < newImg.height ==>
      Along(leftRight, x, y) < Extent(images, leftRight)
      && newImg.At(x, y) == images[Owner(Along(leftRight, x, y), Extent(images, leftRight), |images|)].At(x, y)
  {
    var n := |images|;
    var w, h := images[0].width, images[0].height;
    var extent := if leftRight then w else h;
    newImg := NewImage(w, h, background);
    CutEnds(extent, n);
    for i := 0 to n
      invariant CoveredUpTo(newImg, images, leftRight, background, i)
    {
      var lo, hi := Cut(i, extent, n), Cut(i + 1, extent, n);
      CoverStep(images, leftRight, background, newImg, i);
      assert images[i].Valid() && images[i].width == w && images[i].height == h;
      if leftRight {
        newImg := Paste(newImg, Crop(images[i], lo, 0, hi, h), lo, 0, hi, h);
      } else {
        newImg := Paste(newImg, Crop(images[i], 0, lo, w, hi), 0, lo, w, hi);
      }
    }
  }

  /** The picture shows the owner's pixel in the first i bands and the background beyond. */
  ghost predicate CoveredUpTo<P>(pic: Picture<P>, images: seq<Picture<P>>, leftRight: bool, background: P, i: nat)
    requires SamePictures(images)
  {
    && i <= |images|
    && pic.Valid() && pic.width == images[0].width && pic.height == images[0].height
    && forall x, y :: 0 <= x < pic.width && 0 <= y < pic.height ==>
         pic.At(x, y) ==
           if Along(leftRight, x, y) < Cut(i, Extent(images, leftRight), |images|) then
             CutMonotone(i, |images|, Extent(images, leftRight), |images|);
             CutEnds(Extent(images, leftRight), |images|);
             images[Owner(Along(leftRight, x, y), Extent(images, leftRight), |images|)].At(x, y)
           else background
  }

  /** Copying band i into its place extends the agreement by one band. */
  lemma CoverStep<P>(images: seq<Picture<P>>, leftRight: bool, background: P, pic: Picture<P>, i: nat)
    requires SamePictures(images) && i < |images| && CoveredUpTo(pic, images, leftRight, background, i)
    ensures var e, w, h := Extent(images, leftRight), images[0].width, images[0].height;
      var lo, hi := Cut(i, e, |images|), Cut(i + 1, e, |images|);
      && lo <= hi <= e
      && (leftRight ==> CoveredUpTo(Paste(pic, Crop(images[i], lo, 0, hi, h), lo, 0, hi, h),
                                    images, leftRight, background, i + 1))
      && (!leftRight ==> CoveredUpTo(Paste(pic, Crop(images[i], 0, lo, w, hi), 0, lo, w, hi),
                                     images, leftRight, background, i + 1))
  {
    var n := |images|;
    var e, w, h := Extent(images, leftRight), images[0].width, images[0].height;
    CutInside(i, e, n);
    CutMonotone(i, i + 1, e, n);
    var lo, hi := Cut(i, e, n), Cut(i + 1, e, n);
    assert images[i].Valid() && images[i].width == w && images[i].height == h;
    var out := if leftRight then Paste(pic, Crop(images[i], lo, 0, hi, h), lo, 0, hi, h)
               else Paste(pic, Crop(images[i], 0, lo, w, hi), 0, lo, w, hi);
    if leftRight {
      PasteCrop(pic, images[i], lo, 0, hi, h);
    } else {
      PasteCrop(pic, images[i], 0, lo, w, hi);
    }
    forall x, y | 0 <= x < w && 0 <= y < h && lo <= Along(leftRight, x, y) < hi
      ensures Owner(Along(leftRight, x, y), e, n) == i
    {
      OwnerUnique(i, Along(leftRight, x, y), e, n);
    }
  }
}
