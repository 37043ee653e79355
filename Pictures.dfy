/** The three operations of the imaging library the generic blend uses, on pictures held
    as values: Image.new, Image.crop and Image.paste with a four-number box.  A picture is
    a width, a height and its rows of pixels; P is whatever a pixel is in the picture's
    mode. */
module Pictures {

  datatype Picture<P> = Picture(width: nat, height: nat, rows: seq<seq<P>>)
  {
    predicate Valid() {
      |rows| == height && forall y :: 0 <= y < height ==> |rows[y]| == width
    }

    /** The pixel in column x of row y. */
    function At(x: nat, y: nat): P
      requires Valid() && x < width && y < height
    {
      rows[y][x]
    }
  }

  /** Image.new(mode, size, colour): every pixel the given colour. */
  function NewImage<P>(width: nat, height: nat, colour: P): (pic: Picture<P>)
    ensures pic.Valid() && pic.width == width && pic.height == height
    ensures forall x, y :: 0 <= x < width && 0 <= y < height ==> pic.At(x, y) == colour
  {
    Picture(width, height, seq(height, _ => seq(width, _ => colour)))
  }

  /** Image.crop((left, upper, right, lower)) for a box inside the picture: the pixels
      of columns left .. right - 1 and rows upper .. lower - 1. */
  function Crop<P>(pic: Picture<P>, left: nat, upper: nat, right: nat, lower: nat): (part: Picture<P>)
    requires pic.Valid() && left <= right <= pic.width && upper <= lower <= pic.height
    ensures part.Valid() && part.width == right - left && part.height == lower - upper
    ensures forall x, y :: 0 <= x < right - left && 0 <= y < lower - upper ==>
      part.At(x, y) == pic.At(left + x, upper + y)
  {
    Picture(right - left, lower - upper,
      seq(lower - upper, y requires 0 <= y < lower - upper => pic.rows[upper + y][left..right]))
  }

  /** Image.paste(src, (left, upper, right, lower)) for a box inside the picture whose
      size is the size of src: the box shows src, every other pixel is unchanged. */
  function Paste<P>(dst: Picture<P>, src: Picture<P>, left: nat, upper: nat, right: nat, lower: nat)
    : (pic: Picture<P>)
    requires dst.Valid() && src.Valid()
    requires left <= right <= dst.width && upper <= lower <= dst.height
    requires right - left == src.width && lower - upper == src.height
    ensures pic.Valid() && pic.width == dst.width && pic.height == dst.height
    ensures forall x, y :: 0 <= x < dst.width && 0 <= y < dst.height ==>
      pic.At(x, y) == if left <= x < right && upper <= y < lower then src.At(x - left, y - upper)
                      else dst.At(x, y)
  {
    Picture(dst.width, dst.height,
      seq(dst.height, y requires 0 <= y < dst.height =>
        seq(dst.width, x requires 0 <= x < dst.width =>
          if left <= x < right && upper <= y < lower then src.rows[y - upper][x - left]
          else dst.rows[y][x])))
  }

  /** Cropping a box and pasting it into the same box of another picture of the same
      size copies exactly that box. */
  lemma PasteCrop<P>(dst: Picture<P>, pic: Picture<P>, left: nat, upper: nat, right: nat, lower: nat)
    requires dst.Valid() && pic.Valid() && dst.width == pic.width && dst.height == pic.height
    requires left <= right <= pic.width && upper <= lower <= pic.height
    ensures var out := Paste(dst, Crop(pic, left, upper, right, lower), left, upper, right, lower);
      forall x, y :: 0 <= x < dst.width && 0 <= y < dst.height ==>
        out.At(x, y) == if left <= x < right && upper <= y < lower then pic.At(x, y) else dst.At(x, y)
  {
    var part := Crop(pic, left, upper, right, lower);
    var out := Paste(dst, part, left, upper, right, lower);
    forall x, y | 0 <= x < dst.width && 0 <= y < dst.height && left <= x < right && upper <= y < lower
      ensures out.At(x, y) == pic.At(x, y)
    {
      assert out.At(x, y) == part.At(x - left, y - upper);
    }
  }
}
