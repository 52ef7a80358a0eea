# Sixteen: a verified model of a 16-segment display driver

`Sixteen.cpp` drives a chain of two-digit 16-segment display modules, one
data pin and one clock pin per module, over a bit-banged two-wire protocol.
This project models its logic in Dafny and proves what it computes:

- `chars.dfy` (module `Chars`): C `char`s as signed 8-bit values, the font as
  an uninterpreted table of 16-bit masks, and `charMask` (case folding and
  the blank fallback).
- `layout.dfy` (module `Layout`): the 32-bit segment frame of one module. The
  left digit sits in bits 8..23. The right digit is split over bits 0..7
  and 24..31. `Compose` builds a frame and `LeftDigit`/`RightDigit` read it
  back.
- `wire.dfy` (module `Wire`): the screen registry (`addScreen`), `writeBit`
  and `writeMask` as traces of pin events. It also holds a model of the
  receiving module, which follows its two wires and samples the data line
  on each rising clock edge. What a trace transmits is stated through that
  receiver: the 36 framed bits, and a decoder (`Payload`) that recovers the
  32-bit frame from them.
- `display.dfy` (module `Display`): `writeChars` end to end, the scrolling
  marquee `scroll`, and the font sweep `digitTest`. `scroll` is written with
  the driver's own read pointer and two `char` padding cursors, and is
  proved equal to a closed form. In frame `f`, digit `d` shows character
  `f - (lastDigit - d)` of the message including its NUL terminator, or a
  blank outside `0..len`.

Decisions the source leaves open:

- `Sixteen.h` is not part of this model. `lastChar` and `maxNumScreens` are
  constants whose values are left open within bounds. `LastChar` is any
  non-negative `char`, 0..127; only the font sweep needs it to be at most
  125 (`Display.SweepFits`). `MaxNumScreens` lies in 1..63, so
  `2 * numScreens` fits the marquee's `char` cursors. The font is a
  parameter: a sequence of `LastChar + 1` masks that are never inspected.
- Messages are NUL-free sequences. The driver reads them followed by their
  terminator (`Terminated`). The terminator is displayed for one frame on
  every digit, as `font[0]`, exactly as the driver does.
- `Bit(x, i)` is defined by `i` shifts of one place each, which keeps the
  proofs about packing bits small. `Wire.BitIsShift` proves it equal to the
  driver's `(frame >> i) & 1`, and `WriteMask` uses the driver's expression.
- `addScreen` returns nothing and silently ignores a call made when the
  registry is full; `Wire.AddScreen` does the same.

## Model

| member | source | states |
|---|---|---|
| `Wire.NewRegistry` | Sixteen.cpp:6-8 | a new driver has no screens and a valid registry |
| `Wire.AddScreen` | Sixteen.cpp:11-27 | at capacity, the registry and the pin trace are unchanged; otherwise the count goes up by one, the new slot holds the given pins, earlier slots are kept, and the count never exceeds `maxNumScreens`; the set-up touches only the two given pins |
| `Wire.AddScreensKeepsPrefix` | Sixteen.cpp:11-27 | after any sequence of calls, the registry holds exactly the first calls that fit, in order, and drops the rest |
| `Wire.AddScreensFull` | Sixteen.cpp:13 | once full, no further call changes the registry |
| `Wire.AddScreenIdles` | Sixteen.cpp:18-24 | configuring a new screen drives both wires low, so its module starts idle whatever the wire levels were |
| `Wire.WriteBit` | Sixteen.cpp:31-40 | drives only the screen's data and clock pins; from any data level with the clock low, the module samples exactly the bit; afterwards the clock is low and the data line holds the bit |
| `Wire.ReceiveUntouched` | Sixteen.cpp:31-40 | a module none of whose pins a run drives keeps its wire levels and samples nothing |
| `Wire.OtherScreensUntouched` | Sixteen.cpp:34-39 | a run confined to one screen's pins leaves the module of every screen with different pins as it was |
| `Wire.ReceiveAppend` | Sixteen.cpp:43-55 | what the module samples from two event runs in a row is what it samples from their concatenation |
| `Wire.WriteMask` | Sixteen.cpp:43-55 | emits 36 clocked bits (144 pin events) on the screen's two pins only; from any data level with the clock low, the module samples enable, spacer, the 32 frame bits LSB first, and two spacers, and ends idle; modules on other pins sample nothing and keep their levels |
| `Wire.PayloadOfFramed` | Sixteen.cpp:46-54 | the payload positions 2..33 of a framed value decode back to that value |
| `Wire.FramedOfPayload` | Sixteen.cpp:46-54 | any 36 bits that decode to a frame are exactly that frame's framing |
| `Wire.BitIsShift` | Sixteen.cpp:50 | bit `i` as the model reads it is the driver's `(frame >> i) & 1` |
| `Wire.PackBits` | Sixteen.cpp:49-51 | packing bits least-significant first keeps every bit at its position |
| `Wire.PackLowBits` | Sixteen.cpp:49-51 | packing the low `n` bits of a value gives the value with its higher bits cleared |
| `Chars.CharMask` | Sixteen.cpp:60-70 | for a character that is not a lower-case letter, the mask is blank outside the font range and the font entry inside it |
| `Chars.CaseFolding` | Sixteen.cpp:63 | a lower-case letter has exactly the mask of its capital |
| `Chars.NonBlankIsFontEntry` | Sixteen.cpp:63-69 | a non-blank mask is the font entry of the case-folded character, which lies in the font range |
| `Layout.LeftPiece` | Sixteen.cpp:76-77 | the left mask moved up 8 bits stays in bits 8..23 and can be read back |
| `Layout.RightLowPiece` | Sixteen.cpp:83-86 | the right mask's low byte stays in bits 0..7 |
| `Layout.RightHighPiece` | Sixteen.cpp:85-89 | the right mask's high byte lands in bits 24..31 |
| `Layout.Compose` | Sixteen.cpp:76-92 | bits 8..23 of the frame read back as the left mask; bits 0..7 and 24..31 reassemble the right mask |
| `Layout.PiecesDisjoint` | Sixteen.cpp:92 | the three OR-ed pieces occupy disjoint bits; the two digit regions are disjoint and cover all 32 bits |
| `Layout.DecomposeCompose` | Sixteen.cpp:74-92 | every 32-bit frame is the composition of the two digits it shows |
| `Layout.ComposeInjective` | Sixteen.cpp:76-92 | different digit pairs never give the same frame |
| `Display.WriteChars` | Sixteen.cpp:72-93 | drives only the screen's two pins; from any data level with the clock low, the module receives a well-framed payload whose left and right digit regions hold the two characters' masks, and ends idle; modules on other pins see nothing |
| `Display.Scroll` | Sixteen.cpp:103-173 | the driver's pointer-and-cursor loop produces exactly the closed-form marquee: nothing for an empty message, otherwise `len + 2*numScreens + 1` frames, each writing every screen once in descending order, digit `d` of frame `f` showing index `f-(lastDigit-d)` of the terminated message or a blank; every pointer read lies inside the terminated message and the `char` cursors never overflow |
| `Display.WindowSlides` | Sixteen.cpp:126-168 | from one frame to the next, each digit shows what its right neighbour showed |
| `Display.ShownOncePerDigit` | Sixteen.cpp:128-168 | every character and the terminator pass each digit in exactly one frame, and that frame belongs to the marquee |
| `Display.FirstAndLastFrames` | Sixteen.cpp:120-124 | the first frame shows only the first character, on the rightmost digit; the last frame is blank |
| `Display.ScrollHi` | Sixteen.cpp:103-173 | "HI" on one screen gives five frames: (' ','H'), ('H','I'), ('I',NUL), (NUL,' '), (' ',' ') |
| `Display.DigitTest` | Sixteen.cpp:176-181 | writes `(i, i+1)` for `i = startAt, startAt+2, ...` in increasing order, exactly while `i <= lastChar`, for `lastChar <= 125` |
| `Display.SweepCovers` | Sixteen.cpp:176-181 | every character from `startAt` to `lastChar` is shown by the sweep, on the left or the right digit |

## Left out

- Timing: the 1500 ms wait of `digitTest` and the `delay_ms` wait after every marquee frame are not modelled, so `Scroll` takes no delay. The 10 µs clock pulse is kept only as a `DelayMicros(10)` event.
- Pin hardware: `pinMode` and `digitalWrite` become trace events. The `OUTPUT` mode argument is implied by `ConfigureOutput`.
- The font table contents and its program-memory storage: the font is an uninterpreted parameter.
- `Sixteen.h`: the concrete values of `lastChar` and `maxNumScreens` are not known here. They are bounded constants. The bound on `maxNumScreens`, and `SweepFits` for the font sweep, stand in for the `char` overflow of the marquee cursors and of the sweep counter, which is not modelled.
- Unterminated message buffers: a message is a NUL-free sequence with an implicit terminator.
- Registry slots at or above `numScreens`, which the driver leaves uninitialised, are not represented. Every write therefore requires a registered screen (`Registry.Has`).
- Wire.WriteBit: the reception guarantee is stated only for a screen whose data and clock pins differ (`DistinctPins`). With a shared pin the two wires cannot be told apart.
- Display.Scroll: the result is the sequence of `writeChars` calls per frame. Lowering each call to pin events is what `Display.WriteChars` states, and it is not repeated per frame.
- Display.DigitTest: the result is the sequence of `writeChars` calls, not their pin events. It is modelled only for `lastChar <= 125` (`SweepFits`). With `lastChar == 127` the guard `i <= lastChar` holds for every `char`, so the loop never ends once `i += 2` wraps. With `lastChar == 126` it ends only for an odd `startAt`; for an even one, `i` reaches 126, `i += 2` wraps to -128, and the loop does not end either. The wrap-around of a `char` is not modelled.
- Display.Scroll: the read index `farRight - (lastDigit - thisDigit) + (numDigits - lowestDigitPadded)` is computed as an unbounded integer. In C++ the pointer is formed left to right, and the partial pointer `farRight - (lastDigit - thisDigit)` can lie before the start of the message (two screens, message "A", frame 3, digit 1 forms `message - 1` before reading `message[1]`). That is undefined behaviour the model does not show; only the final read is proved to lie inside the terminated message.
