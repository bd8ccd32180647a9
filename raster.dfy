/** Raster images as the program handles them: numpy arrays of shape
    height x width x 3 with 8-bit channels. The channels keep whatever order
    the image arrived in; nothing modelled here depends on that order. */
module Raster {

  newtype uint8 = x: int | 0 <= x < 256

  datatype Pixel = Pixel(ch0: uint8, ch1: uint8, ch2: uint8)

  /** The value np.zeros gives every cell of a fresh uint8 buffer. */
  const Black := Pixel(0, 0, 0)

  const Channels := 3

  /** An image of `height` rows of `width` pixels each. */
  datatype Image = Image(height: nat, width: nat, pixels: seq<seq<Pixel>>) {

    predicate Wellformed() {
      |pixels| == height &&
      forall r :: 0 <= r < |pixels| ==> |pixels[r]| == width
    }

    function PixelCount(): nat {
      Product(height, width)
    }

    /** numpy's `size`: the number of channel values. */
    function Size(): nat {
      PixelCount() * Channels
    }
  }

  /** A product of two dimensions, behind a function so that the verifier
      multiplies only where a proof asks it to. */
  function Product(a: nat, b: nat): nat {
    a * b
  }

  predicate AllWellformed(images: seq<Image>) {
    forall k :: 0 <= k < |images| ==> images[k].Wellformed()
  }
}
