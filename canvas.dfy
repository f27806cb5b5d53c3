/**
  The drawing calls the renderer makes on its canvas, as values. The canvas library
  itself is not part of this model: a drawing routine here returns the list of calls
  it would make, in order.
 */
module Canvas {

  /** The library's named colours (their numeric values are not part of this model)
      and a colour given as a 0xRRGGBB number. */
  datatype Color = Green | Red | White | Rgb(code: int)

  /** The image keys this game draws with: the whole of `bricks.png`, or the
      64 by 64 region at (`left`, `top`) of the sprite sheet `snake.png`, which
      the library spells "snake.png|left,top,64,64". */
  datatype Sprite = BricksPng | SnakePng(left: int, top: int)

  datatype Command =
    | Erase
    | Image(sprite: Sprite, x: int, y: int, width: int, height: int)
    | Text(x: int, y: int, text: string, color: Color, fontSize: int)
    | Rect(x: int, y: int, width: int, height: int, fill: Color)
}

/** Kotlin's `Int.toString()`, used by the string templates of the status bar. */
module Decimal {

  function DigitChar(d: nat): (c: char)
    requires d < 10
    ensures '0' <= c <= '9' && c as int - '0' as int == d
  {
    "0123456789"[d]
  }

  /** The decimal digits of `n`, most significant first, without leading zeros. */
  function NatToString(n: nat): (s: string)
    ensures |s| >= 1 && (|s| > 1 ==> s[0] != '0')
    ensures forall i :: 0 <= i < |s| ==> '0' <= s[i] <= '9'
  {
    if n < 10 then [DigitChar(n)] else NatToString(n / 10) + [DigitChar(n % 10)]
  }

  function IntToString(n: int): (s: string)
    ensures |s| >= 1
    ensures (s[0] == '-') <==> n < 0
    ensures s[0] == '-' || '0' <= s[0] <= '9'
    ensures forall i :: 0 < i < |s| ==> '0' <= s[i] <= '9'
    ensures s[0] == '-' ==> |s| >= 2 && s[1] != '0'
    ensures s[0] != '-' && |s| > 1 ==> s[0] != '0'
  {
    if n < 0 then "-" + NatToString(-n) else NatToString(n)
  }

  /** Reads a string of decimal digits back as a number. */
  function ParseNat(s: string): nat
    requires forall i :: 0 <= i < |s| ==> '0' <= s[i] <= '9'
  {
    if s == [] then 0 else 10 * ParseNat(s[..|s| - 1]) + (s[|s| - 1] as int - '0' as int)
  }

  /** Reads an optional minus sign followed by decimal digits. */
  function ParseInt(s: string): int
    requires |s| >= 1
    requires forall i :: 0 < i < |s| ==> '0' <= s[i] <= '9'
    requires s[0] == '-' || '0' <= s[0] <= '9'
  {
    if s[0] == '-' then 0 - ParseNat(s[1..]) else ParseNat(s)
  }

  lemma {:induction false} NatRoundTrip(n: nat)
    ensures ParseNat(NatToString(n)) == n
  {
    if n >= 10 {
      var s := NatToString(n);
      assert s[..|s| - 1] == NatToString(n / 10);
      NatRoundTrip(n / 10);
    }
  }

  /** The text written for a number reads back as that number. */
  lemma IntRoundTrip(n: int)
    ensures ParseInt(IntToString(n)) == n
  {
    if n < 0 {
      var digits := NatToString(-n);
      assert IntToString(n) == "-" + digits && ("-" + digits)[1..] == digits;
      NatRoundTrip(-n);
    } else {
      assert IntToString(n) == NatToString(n);
      NatRoundTrip(n);
    }
  }
}
