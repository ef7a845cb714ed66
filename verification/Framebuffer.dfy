/** Colours packed into channels of a pixel. */
module Framebuffer {
  /** A channel of `size` bits, `pos` bits above the lowest. */
  datatype Channel = Channel(size: bv32, pos: bv32)

  datatype PixelFormat = PixelFormat(red: Channel, green: Channel, blue: Channel)

  /** At most eight bits, and no shift by the width of the word or more. */
  predicate ValidChannel(c: Channel) {
    c.size <= 8 && c.pos < 32
  }

  predicate ValidFormat(f: PixelFormat) {
    ValidChannel(f.red) && ValidChannel(f.green) && ValidChannel(f.blue)
  }

  /** C's shifts, whose count must stay below the width of the word. */
  function Up(x: bv32, n: bv32): bv32
    requires n < 32
  {
    x << n
  }

  function Down(x: bv32, n: bv32): bv32
    requires n < 32
  {
    x >> n
  }

  function And(a: bv32, b: bv32): bv32 {
    a & b
  }

  function Or(a: bv32, b: bv32, c: bv32): bv32 {
    a | b | c
  }

  /** C's cast of a word to a byte. */
  function Low8(x: bv32): bv8 {
    (x & 0xFF) as bv8
  }

  /** The low `size` bits. */
  function LowMask(size: bv32): bv32
    requires size <= 8
  {
    Up(1, size) - 1
  }

  /** The bits of a pixel that belong to a channel. */
  function Mask(c: Channel): bv32
    requires ValidChannel(c)
  {
    Up(LowMask(c.size), c.pos)
  }

  function Colours(f: PixelFormat): bv32
    requires ValidFormat(f)
  {
    Or(Mask(f.red), Mask(f.green), Mask(f.blue))
  }

  function PackChannel(c: Channel, v: bv8): bv32
    requires ValidChannel(c)
  {
    Up(Down(v as bv32, 8 - c.size), c.pos)
  }

  function UnpackChannel(c: Channel, colour: bv32): bv8
    requires ValidChannel(c)
  {
    Low8(Up(And(Down(colour, c.pos), LowMask(c.size)), 8 - c.size))
  }

  function PackColour(f: PixelFormat, r: bv8, g: bv8, b: bv8): bv32
    requires ValidFormat(f)
  {
    Or(PackChannel(f.red, r), PackChannel(f.green, g), PackChannel(f.blue, b))
  }

  lemma ChannelRoundTrip(c: Channel, colour: bv32)
    requires ValidChannel(c)
    ensures PackChannel(c, UnpackChannel(c, colour)) == And(colour, Mask(c))
  {
    hide Up, Down, And, Low8;
    var t := And(Down(colour, c.pos), LowMask(c.size));
    AndAgain(Down(colour, c.pos), LowMask(c.size));
    Narrows(c.size, t);
    MaskInPlace(c.pos, LowMask(c.size), colour);
  }

  /** Eight bits are enough for a channel's value, shifted to the top of the byte. */
  lemma Narrows(size: bv32, t: bv32)
    requires size <= 8 && And(t, LowMask(size)) == t
    ensures Down(Low8(Up(t, 8 - size)) as bv32, 8 - size) == t
  {
  }

  lemma AndAgain(a: bv32, m: bv32)
    ensures And(And(a, m), m) == And(a, m)
  {
  }

  lemma AndAssoc(a: bv32, b: bv32, c: bv32)
    ensures And(And(a, b), c) == And(a, And(b, c))
  {
  }

  lemma AndOnes(m: bv32)
    ensures And(0xFFFF_FFFF, m) == m
  {
  }

  lemma MaskInPlace(pos: bv32, m: bv32, colour: bv32)
    requires pos < 32
    ensures Up(And(Down(colour, pos), m), pos) == And(colour, Up(m, pos))
  {
    hide Up, Down, And;
    UpAnd(pos, Down(colour, pos), m);
    DownUp(pos, colour);
    UpAnd(pos, 0xFFFF_FFFF, m);
    AndOnes(m);
    AndAssoc(colour, Up(0xFFFF_FFFF, pos), Up(m, pos));
  }

  lemma {:induction false} UpAnd(pos: bv32, a: bv32, m: bv32)
    requires pos < 32
    ensures Up(And(a, m), pos) == And(Up(a, pos), Up(m, pos))
    decreases pos
  {
    if pos > 0 {
      hide Up, And;
      UpBoth(pos, a, m);
      UpAnd(pos - 1, Up(a, 1), Up(m, 1));
    }
  }

  lemma UpBoth(pos: bv32, a: bv32, m: bv32)
    requires 0 < pos < 32
    ensures Up(And(a, m), pos) == Up(And(Up(a, 1), Up(m, 1)), pos - 1)
    ensures Up(a, pos) == Up(Up(a, 1), pos - 1) && Up(m, pos) == Up(Up(m, 1), pos - 1)
  {
    hide And;
    UpOne(pos, And(a, m));
    UpOne(pos, a);
    UpOne(pos, m);
    AndOne(a, m);
  }

  lemma AndOne(a: bv32, m: bv32)
    ensures Up(And(a, m), 1) == And(Up(a, 1), Up(m, 1))
  {
  }

  lemma UpOne(pos: bv32, x: bv32)
    requires 0 < pos < 32
    ensures Up(x, pos) == Up(Up(x, 1), pos - 1)
  {
  }

  lemma DownOne(pos: bv32, x: bv32)
    requires 0 < pos < 32
    ensures Down(x, pos) == Down(Down(x, pos - 1), 1)
  {
  }

  lemma DownUpOne(x: bv32)
    ensures Up(Down(x, 1), 1) == And(x, Up(0xFFFF_FFFF, 1))
  {
    hide Up, Down, And;
    var m := Up(0xFFFF_FFFF, 1);
    OnesUp();
    ShiftIs(x, 1);
    ShiftIs(Down(x, 1), 1);
    AndIs(x, m);
    LowestBit(x, Down(x, 1), m);
  }

  lemma OnesUp()
    ensures Up(0xFFFF_FFFF, 1) == 0xFFFF_FFFE
  {
  }

  lemma LowestBit(x: bv32, half: bv32, m: bv32)
    ensures half == x >> 1 && m == 0xFFFF_FFFE ==> half << 1 == x & m
  {
  }

  lemma ShiftIs(x: bv32, n: bv32)
    requires n < 32
    ensures Up(x, n) == x << n && Down(x, n) == x >> n
  {
  }

  lemma AndIs(a: bv32, b: bv32)
    ensures And(a, b) == a & b
  {
  }

  lemma NoShift(c: bv32)
    ensures Up(Down(c, 0), 0) == And(c, Up(0xFFFF_FFFF, 0))
  {
  }

  lemma {:induction false} DownUp(pos: bv32, c: bv32)
    requires pos < 32
    ensures Up(Down(c, pos), pos) == And(c, Up(0xFFFF_FFFF, pos))
    decreases pos
  {
    hide Up, Down, And;
    if pos == 0 {
      NoShift(c);
    } else {
      var ones: bv32 := 0xFFFF_FFFF;
      var e, u := Down(c, pos - 1), Up(ones, 1);
      DownOne(pos, c);
      UpOne(pos, Down(c, pos));
      DownUpOne(e);
      UpAnd(pos - 1, e, u);
      DownUp(pos - 1, c);
      AndAssoc(c, Up(ones, pos - 1), Up(u, pos - 1));
      UpOne(pos, ones);
      UpAnd(pos - 1, ones, u);
      AndOnes(u);
    }
  }

  lemma AndOr(a: bv32, x: bv32, y: bv32, z: bv32)
    ensures Or(And(a, x), And(a, y), And(a, z)) == And(a, Or(x, y, z))
  {
    hide And, Or;
    AndIs(a, x);
    AndIs(a, y);
    AndIs(a, z);
    OrIs(x, y, z);
    AndIs(a, x | y | z);
    OrIs(a & x, a & y, a & z);
    Distribute(a, x, y, z);
  }

  lemma OrIs(a: bv32, b: bv32, c: bv32)
    ensures Or(a, b, c) == a | b | c
  {
  }

  lemma Distribute(a: bv32, x: bv32, y: bv32, z: bv32)
    ensures (a & x) | (a & y) | (a & z) == a & (x | y | z)
  {
  }

  /** Unpacking a colour and packing it again keeps exactly its channel bits. */
  lemma PackUnpack(f: PixelFormat, colour: bv32)
    requires ValidFormat(f)
    ensures PackColour(f, UnpackChannel(f.red, colour), UnpackChannel(f.green, colour), UnpackChannel(f.blue, colour))
         == And(colour, Colours(f))
  {
    hide And, Or, PackChannel, UnpackChannel, Mask;
    ChannelRoundTrip(f.red, colour);
    ChannelRoundTrip(f.green, colour);
    ChannelRoundTrip(f.blue, colour);
    AndOr(colour, Mask(f.red), Mask(f.green), Mask(f.blue));
  }
}
