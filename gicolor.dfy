/** The RGBA colour GiColor (core/include/graph/gicolor.h): four byte channels,
    updated in place by setARGB and the two `set` overloads, and packed into
    a 32-bit ARGB `int` by getARGB. */
module Colors {
  type byte = bv8

  // ---- Packing: the bit layout of getARGB / setARGB ----

  /** The 32 bits of getARGB's `int`: a in bits 24-31, r in 16-23, g in 8-15,
      b in 0-7.  Bit 31 is the sign of the `int`. */
  function Pack(a: byte, r: byte, g: byte, b: byte): (bits: bv32)
  {
    ((a as bv32) << 24) | ((r as bv32) << 16) | ((g as bv32) << 8) | (b as bv32)
  }

  /** `(unsigned char)(value >> 24)` and the three lower bytes: the cast keeps
      only 8 bits, so an arithmetic and a logical shift give the same byte. */
  function AlphaOf(bits: bv32): byte { ((bits >> 24) & 0xFF) as byte }
  function RedOf(bits: bv32): byte { ((bits >> 16) & 0xFF) as byte }
  function GreenOf(bits: bv32): byte { ((bits >> 8) & 0xFF) as byte }
  function BlueOf(bits: bv32): byte { (bits & 0xFF) as byte }

  /** Unpacking what was packed gives back the four channels. */
  lemma UnpackPack(a: byte, r: byte, g: byte, b: byte)
    ensures AlphaOf(Pack(a, r, g, b)) == a && RedOf(Pack(a, r, g, b)) == r
    ensures GreenOf(Pack(a, r, g, b)) == g && BlueOf(Pack(a, r, g, b)) == b
  {
  }

  /** Packing the four bytes of any 32-bit value gives it back. */
  lemma PackUnpack(bits: bv32)
    ensures Pack(AlphaOf(bits), RedOf(bits), GreenOf(bits), BlueOf(bits)) == bits
  {
  }

  /** Packing is injective: two channel tuples pack alike only when equal. */
  lemma PackInjective(a: byte, r: byte, g: byte, b: byte, a': byte, r': byte, g': byte, b': byte)
    ensures Pack(a, r, g, b) == Pack(a', r', g', b') <==> a == a' && r == r' && g == g' && b == b'
  {
    UnpackPack(a, r, g, b);
    UnpackPack(a', r', g', b');
  }

  // ---- The colour object ----

  class GiColor {
    var r: byte
    var g: byte
    var b: byte
    var a: byte

    /** `GiColor()`: opaque black. */
    constructor Default()
      ensures r == 0 && g == 0 && b == 0 && a == 255
    {
      r, g, b, a := 0, 0, 0, 255;
    }

    /** `GiColor(r, g, b, a = 255)`. */
    constructor (r: byte, g: byte, b: byte, a: byte := 255)
      ensures this.r == r && this.g == g && this.b == b && this.a == a
    {
      this.r, this.g, this.b, this.a := r, g, b, a;
    }

    /** The copy constructor. */
    constructor Copy(c: GiColor)
      ensures r == c.r && g == c.g && b == c.b && a == c.a
    {
      r, g, b, a := c.r, c.g, c.b, c.a;
    }

    static method White() returns (c: GiColor)
      ensures fresh(c)
      ensures c.r == 255 && c.g == 255 && c.b == 255 && c.a == 255
    {
      c := new GiColor(255, 255, 255);
    }

    static method Black() returns (c: GiColor)
      ensures fresh(c)
      ensures c.r == 0 && c.g == 0 && c.b == 0 && c.a == 255
    {
      c := new GiColor(0, 0, 0);
    }

    static method Invalid() returns (c: GiColor)
      ensures fresh(c) && c.IsInvalid()
    {
      c := new GiColor(0, 0, 0, 0);
    }

    /** `getARGB()`: the channels packed into the 32 bits of an `int`; alpha
        takes the sign bit, so the `int` is negative exactly when a >= 128. */
    function GetARGB(): (v: bv32)
      reads this
      ensures AlphaOf(v) == a && RedOf(v) == r && GreenOf(v) == g && BlueOf(v) == b
      ensures v >= 0x8000_0000 <==> a >= 128
    {
      UnpackPack(a, r, g, b);
      Pack(a, r, g, b)
    }

    /** `setARGB(value)`: each channel takes its byte of the value, so that
        getARGB gives the value back. */
    method SetARGB(value: bv32)
      modifies this
      ensures a == AlphaOf(value) && r == RedOf(value) && g == GreenOf(value) && b == BlueOf(value)
      ensures GetARGB() == value
    {
      a := AlphaOf(value);
      r := RedOf(value);
      g := GreenOf(value);
      b := BlueOf(value);
      PackUnpack(value);
    }

    /** `set(r, g, b)`: the colour channels are assigned; a zero (transparent)
        alpha becomes opaque and any other alpha stays. */
    method Set(r: byte, g: byte, b: byte)
      modifies this
      ensures this.r == r && this.g == g && this.b == b
      ensures a == if old(a) != 0 then old(a) else 255
    {
      this.r := r;
      this.g := g;
      this.b := b;
      this.a := if this.a != 0 then this.a else 255;
    }

    /** `set(r, g, b, a)`: exactly the four given channels. */
    method SetWithAlpha(r: byte, g: byte, b: byte, a: byte)
      modifies this
      ensures this.r == r && this.g == g && this.b == b && this.a == a
    {
      this.r := r;
      this.g := g;
      this.b := b;
      this.a := a;
    }

    /** `isInvalid()`: all four channels zero. */
    predicate IsInvalid()
      reads this
    {
      a == 0 && r == 0 && g == 0 && b == 0
    }

    /** `equals(src)` and `operator==`: channel by channel. */
    predicate Equals(src: GiColor)
      reads this, src
    {
      r == src.r && g == src.g && b == src.b && a == src.a
    }

    /** `operator!=`. */
    predicate NotEquals(src: GiColor)
      reads this, src
    {
      !Equals(src)
    }
  }

  /** The invalid colour is the only one whose ARGB value is 0. */
  lemma InvalidIffZeroARGB(c: GiColor)
    ensures c.IsInvalid() <==> c.GetARGB() == 0
  {
    PackInjective(c.a, c.r, c.g, c.b, 0, 0, 0, 0);
  }

  /** Two colours are equal exactly when their ARGB values are, and `!=` is
      the negation of that. */
  lemma EqualsIffSameARGB(c: GiColor, d: GiColor)
    ensures c.Equals(d) <==> c.GetARGB() == d.GetARGB()
    ensures c.NotEquals(d) <==> c.GetARGB() != d.GetARGB()
  {
    PackInjective(c.a, c.r, c.g, c.b, d.a, d.r, d.g, d.b);
  }

  /** `equals` is an equivalence. */
  lemma EqualsIsEquivalence(c: GiColor, d: GiColor, e: GiColor)
    ensures c.Equals(c)
    ensures c.Equals(d) ==> d.Equals(c)
    ensures c.Equals(d) && d.Equals(e) ==> c.Equals(e)
  {
  }

  /** setARGB(getARGB()) restores all four channels. */
  method ARGBRoundTrip(c: GiColor)
    modifies c
    ensures c.r == old(c.r) && c.g == old(c.g) && c.b == old(c.b) && c.a == old(c.a)
  {
    var v := c.GetARGB();
    c.SetARGB(v);
  }
}
