/** The plain PPM ("P3") file as the tools read it: the list that readlines()
    returns, so every line keeps its line break.  Line 1 holds the magic number,
    line 2 "<width> <height>", line 3 the colour depth, and every later line one
    channel value, three lines per pixel, pixels in row-major order. */
module PpmFile {
  import opened Text

  /** One pixel: its three channel lines, as read from the file. */
  datatype Rgb = Rgb(r: string, g: string, b: string)

  /** lines[1].split() starts with two decimal numbers. */
  predicate HasSize(lines: seq<string>) {
    |lines| >= 2 && TwoNumbers(lines[1]).Some?
  }

  function Width(lines: seq<string>): nat
    requires HasSize(lines)
  {
    TwoNumbers(lines[1]).value.0
  }

  function Height(lines: seq<string>): nat
    requires HasSize(lines)
  {
    TwoNumbers(lines[1]).value.1
  }

  /** lines[3:]: the channel lines after the three header lines. */
  function Payload(lines: seq<string>): seq<string> {
    if |lines| >= 3 then lines[3..] else []
  }

  /** Pixel k of a payload: channel lines 3k, 3k+1 and 3k+2. */
  function Pixel(payload: seq<string>, k: nat): Rgb
    requires 3 * k + 2 < |payload|
  {
    Rgb(payload[3 * k], payload[3 * k + 1], payload[3 * k + 2])
  }

  /** The channel lines of a row-major pixel list, three per pixel. */
  function Channels(pixels: seq<Rgb>): (lines: seq<string>)
    ensures |lines| == 3 * |pixels|
    ensures forall k :: 0 <= k < |pixels| ==> Pixel(lines, k) == pixels[k]
  {
    if pixels == [] then []
    else
      var p := pixels[|pixels| - 1];
      var lines := Channels(pixels[..|pixels| - 1]) + [p.r, p.g, p.b];
      assert forall k :: 0 <= k < |pixels| - 1 ==> Pixel(lines, k) == Pixel(Channels(pixels[..|pixels| - 1]), k);
      lines
  }

  /** The file a writer of the format produces for a width x height image. */
  function Encode(width: nat, height: nat, pixels: seq<Rgb>): seq<string> {
    ["P3\n", Decimal(width) + " " + Decimal(height) + "\n", "255\n"] + Channels(pixels)
  }

  /** The size line of an encoded file reads back as the width and height written. */
  lemma EncodeSize(width: nat, height: nat, pixels: seq<Rgb>)
    ensures HasSize(Encode(width, height, pixels))
    ensures Width(Encode(width, height, pixels)) == width
    ensures Height(Encode(width, height, pixels)) == height
    ensures Payload(Encode(width, height, pixels)) == Channels(pixels)
  {
    TwoNumbersRoundTrip(width, height);
  }
}
