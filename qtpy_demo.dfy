/** The qtpy demo: an RGB LED strip driven from a static pixel buffer. Each
    round walks a cursor over the pixels, lighting only the pixel under the
    cursor in the current palette colour, and then moves to the next colour. */
module QtpyDemo {

  /** struct led_rgb: one byte per channel. */
  datatype LedRgb = LedRgb(r: bv8, g: bv8, b: bv8)

  /** A pixel cleared by memset. */
  const Off: LedRgb := LedRgb(0x00, 0x00, 0x00)

  /** The palette: red, green, blue at a fifteenth of full brightness. */
  const Colors: seq<LedRgb> := [LedRgb(0x0f, 0x00, 0x00), LedRgb(0x00, 0x0f, 0x00), LedRgb(0x00, 0x00, 0x0f)]

  /** The strip has one pixel. */
  const PixelCount: nat := 1

  /** No palette colour is the cleared pixel, so the lit pixel can be told
      apart from the others. */
  lemma PaletteColorsAreLit(i: nat)
    requires i < |Colors|
    ensures Colors[i] != Off
  {
  }

  /** The colour index after a round: one step along the palette, wrapping
      from the last colour back to the first. */
  function NextColor(color: nat): (next: nat)
    requires color < |Colors|
    ensures next < |Colors|
    ensures color < |Colors| - 1 ==> next == color + 1
    ensures color == |Colors| - 1 ==> next == 0
  {
    (color + 1) % |Colors|
  }

  /** The colour index after a number of rounds. */
  function ColorAfter(color: nat, rounds: nat): nat
    requires color < |Colors|
  {
    if rounds == 0 then color else NextColor(ColorAfter(color, rounds - 1))
  }

  /** After `rounds` rounds the colour index has advanced by `rounds` modulo
      the palette size, and it is always a palette index. */
  lemma {:induction false} ColorAfterRounds(color: nat, rounds: nat)
    requires color < |Colors|
    ensures ColorAfter(color, rounds) == (color + rounds) % |Colors|
    ensures ColorAfter(color, rounds) < |Colors|
  {
    if rounds > 0 {
      ColorAfterRounds(color, rounds - 1);
      ModThreeStep(color + rounds - 1);
    }
  }

  /** Adding one moves the remainder modulo 3 one step, wrapping 2 to 0. */
  lemma ModThreeStep(a: nat)
    ensures (a + 1) % 3 == if a % 3 < 2 then a % 3 + 1 else 0
  {
  }

  /** Every third round comes back to the same colour. */
  lemma {:induction false} ColorCycleOfThree(color: nat, rounds: nat)
    requires color < |Colors|
    ensures ColorAfter(color, rounds + |Colors|) == ColorAfter(color, rounds)
  {
    ColorAfterRounds(color, rounds + |Colors|);
    ColorAfterRounds(color, rounds);
  }

  /** The pixel buffer shown with `cursor` lit in colour `c`. */
  function Frame(n: nat, cursor: int, c: LedRgb): seq<LedRgb>
  {
    seq(n, i => if i == cursor then c else Off)
  }

  /** The buffers shown during one round: the cursor at 0, 1, ..., n - 1. */
  function RoundFrames(n: nat, c: LedRgb): seq<seq<LedRgb>>
  {
    seq(n, cursor => Frame(n, cursor, c))
  }

  /** The buffers shown over `rounds` rounds starting at palette index
      `color`. */
  function Shown(n: nat, color: nat, rounds: nat): seq<seq<LedRgb>>
    requires color < |Colors|
  {
    if rounds == 0 then []
    else Shown(n, color, rounds - 1) + RoundFrames(n, Colors[ColorAfter(color, rounds - 1)])
  }

  /** Within one round, pixel i is lit in exactly one shown buffer, the i-th:
      the cursor visits every pixel once, in increasing order, and each shown
      buffer has exactly the pixel under the cursor lit. */
  lemma RoundLightsEachPixelOnce(n: nat, color: nat)
    requires color < |Colors|
    ensures |RoundFrames(n, Colors[color])| == n
    ensures forall k :: 0 <= k < n ==> |RoundFrames(n, Colors[color])[k]| == n
    ensures forall k, i :: 0 <= k < n && 0 <= i < n ==>
      (RoundFrames(n, Colors[color])[k][i] != Off <==> k == i)
    ensures forall k :: 0 <= k < n ==> RoundFrames(n, Colors[color])[k][k] == Colors[color]
  {
    PaletteColorsAreLit(color);
  }

  /** Round r (counting from 0) sends the strip the buffers of one full
      cursor walk in palette colour (color + r) mod 3. */
  lemma ShownRound(n: nat, color: nat, r: nat)
    requires color < |Colors|
    ensures Shown(n, color, r + 1)
            == Shown(n, color, r) + RoundFrames(n, Colors[(color + r) % |Colors|])
  {
    ColorAfterRounds(color, r);
  }

  /** The number of buffers sent over `rounds` rounds. */
  lemma {:induction false} ShownLength(n: nat, color: nat, rounds: nat)
    requires color < |Colors|
    ensures |Shown(n, color, rounds)| == rounds * n
  {
    if rounds > 0 {
      ShownLength(n, color, rounds - 1);
      MulSucc(rounds - 1, n);
    }
  }

  lemma MulSucc(a: nat, n: nat)
    ensures (a + 1) * n == a * n + n
  {
  }

  /** The LED strip device. Each update records the buffer it was sent; the
      driver's return codes are decided outside the application and given as
      a script, consumed one per update (0 once the script is used up). */
  class LedStrip {
    var shown: seq<seq<LedRgb>>
    var replies: seq<int>

    constructor (replies: seq<int>)
      ensures shown == [] && this.replies == replies
    {
      shown := [];
      this.replies := replies;
    }

    /** led_strip_update_rgb. */
    method UpdateRgb(pixels: array<LedRgb>) returns (rc: int)
      modifies this
      ensures shown == old(shown) + [pixels[..]]
      ensures rc == if old(replies) == [] then 0 else old(replies)[0]
      ensures replies == if old(replies) == [] then [] else old(replies)[1..]
    {
      shown := shown + [pixels[..]];
      if replies == [] {
        rc := 0;
      } else {
        rc := replies[0];
        replies := replies[1..];
      }
    }
  }

  /** The application's state: the static pixel buffer, the strip, and the
      colour index that main keeps across rounds. */
  class QtpyApp {
    const pixels: array<LedRgb>
    const strip: LedStrip
    var color: nat

    ghost predicate Valid()
      reads this
    {
      color < |Colors| && pixels.Length == PixelCount
    }

    constructor (strip: LedStrip)
      ensures Valid() && color == 0 && this.strip == strip && fresh(pixels)
      ensures pixels[..] == [Off]
    {
      this.strip := strip;
      pixels := new LedRgb[PixelCount](_ => Off);
      color := 0;
    }

    /** memset of the pixel buffer. */
    method ClearPixels()
      modifies pixels
      ensures forall i :: 0 <= i < pixels.Length ==> pixels[i] == Off
    {
      forall i | 0 <= i < pixels.Length {
        pixels[i] := Off;
      }
    }

    /** Clear the buffer, copy the current colour to the pixel under the
        cursor and send the buffer to the strip. A failed update is only
        logged. */
    method ShowCursor(cursor: nat)
      requires Valid() && cursor < pixels.Length
      modifies pixels, strip
      ensures pixels[..] == Frame(pixels.Length, cursor, Colors[color])
      ensures strip.shown == old(strip.shown) + [Frame(pixels.Length, cursor, Colors[color])]
      ensures strip.replies == if old(strip.replies) == [] then [] else old(strip.replies)[1..]
    {
      ClearPixels();
      pixels[cursor] := Colors[color];
      assert pixels[..] == Frame(pixels.Length, cursor, Colors[color]);
      var rc := strip.UpdateRgb(pixels);
      if rc != 0 {
        // the error is only logged
      }
    }

    /** The start of main: give up if the strip is not ready; otherwise show
        the first colour in pixel 0 with the rest cleared. */
    method Start(deviceReady: bool) returns (started: bool)
      requires Valid() && color == 0
      modifies pixels, strip
      ensures started == deviceReady
      ensures !deviceReady ==> strip.shown == old(strip.shown)
      ensures deviceReady ==> strip.shown == old(strip.shown) + [Frame(pixels.Length, 0, Colors[0])]
      ensures deviceReady ==> pixels[0] == Colors[0]
    {
      if !deviceReady {
        return false;
      }
      ShowCursor(0);
      return true;
    }

    /** One pass of main's endless loop: the cursor walks the pixels in
        increasing order, then the colour index advances. The strip's return
        codes do not affect either. */
    method Round()
      requires Valid()
      modifies this`color, pixels, strip
      ensures Valid()
      ensures color == NextColor(old(color))
      ensures strip.shown == old(strip.shown) + RoundFrames(pixels.Length, Colors[old(color)])
    {
      var cursor := 0;
      while cursor < pixels.Length
        invariant 0 <= cursor <= pixels.Length
        invariant Valid() && color == old(color)
        invariant strip.shown == old(strip.shown) + RoundFrames(pixels.Length, Colors[color])[..cursor]
      {
        ShowCursor(cursor);
        assert RoundFrames(pixels.Length, Colors[color])[..cursor + 1]
            == RoundFrames(pixels.Length, Colors[color])[..cursor] + [Frame(pixels.Length, cursor, Colors[color])];
        cursor := cursor + 1;
      }
      assert RoundFrames(pixels.Length, Colors[color])[..pixels.Length] == RoundFrames(pixels.Length, Colors[color]);
      color := (color + 1) % |Colors|;
    }

    /** A number of passes of main's endless loop. */
    method RunRounds(rounds: nat)
      requires Valid()
      modifies this`color, pixels, strip
      ensures Valid()
      ensures color == ColorAfter(old(color), rounds)
      ensures strip.shown == old(strip.shown) + Shown(pixels.Length, old(color), rounds)
    {
      var done := 0;
      while done < rounds
        invariant 0 <= done <= rounds
        invariant Valid()
        invariant color == ColorAfter(old(color), done)
        invariant strip.shown == old(strip.shown) + Shown(pixels.Length, old(color), done)
      {
        Round();
        done := done + 1;
      }
    }
  }
}
