/** Text on a chain of two-digit modules: writing a character pair to one
    module, the scrolling marquee across all modules, and the font sweep.
    Screens are numbered left to right; screen `k` holds digit `2k` (left)
    and digit `2k + 1` (right). */
module Display {
  import opened Chars
  import opened Layout
  import opened Wire

  /** One `writeChars(screen, left, right)` call. */
  datatype CharWrite = CharWrite(screen: int, left: SChar, right: SChar)

  /** `writeChars`: the frame of the two characters, sent to one screen on
      its own two pins. Starting with the clock low, whatever the data
      level, the module receives a well-framed payload whose left and right
      digit regions hold exactly the two characters' masks, and is idle
      again afterwards. Modules on other pins see nothing. */
  method WriteChars(reg: Registry, font: Font, screen: int, lchar: SChar, rchar: SChar)
    returns (events: seq<PinEvent>)
    requires reg.Has(screen)
    ensures |events| == 4 * WireBits
    ensures reg.OnlyScreen(screen, events)
    ensures reg.DistinctPins(screen) ==> forall data: bool ::
              var got := Received(reg, screen, Line(data, false), events);
              && got.line == Idle
              && Payload(got.bits).Some?
              && LeftDigit(Payload(got.bits).value) == CharMask(font, lchar)
              && RightDigit(Payload(got.bits).value) == CharMask(font, rchar)
    ensures forall other: int, line: Line | reg.Has(other) && reg.Separate(screen, other) ::
              Received(reg, other, line, events) == Reception(line, [])
  {
    var frame := Compose(CharMask(font, lchar), CharMask(font, rchar));
    events := WriteMask(reg, screen, frame);
    PayloadOfFramed(frame);
  }

  /** A C string's characters, without its terminator. */
  predicate NulFree(msg: seq<SChar>) {
    forall i :: 0 <= i < |msg| ==> msg[i] != NUL
  }

  /** The message as it sits in memory: its characters and the NUL. */
  function Terminated(msg: seq<SChar>): seq<SChar> {
    msg + [NUL]
  }

  /** The position in the terminated message that digit `d` of a chain of
      `numScreens` screens shows in frame `f`: the message enters at the
      rightmost digit and moves one digit left per frame. */
  function SourceIndex(numScreens: nat, f: int, d: int): int {
    f - (2 * numScreens - 1 - d)
  }

  /** What digit `d` shows in frame `f`: the character at its source index
      (the terminator included), or a blank before the message and after
      its terminator. */
  function DigitChar(numScreens: nat, msg: seq<SChar>, f: int, d: int): SChar {
    var k := SourceIndex(numScreens, f, d);
    if 0 <= k <= |msg| then Terminated(msg)[k] else SPACE
  }

  /** The writes of frame `f`: one per screen, from the rightmost screen to
      the leftmost. */
  function FrameSpec(numScreens: nat, msg: seq<SChar>, f: int): (writes: seq<CharWrite>)
    ensures |writes| == numScreens
  {
    seq(numScreens, j requires 0 <= j < numScreens =>
      var screen := numScreens - 1 - j;
      CharWrite(screen, DigitChar(numScreens, msg, f, 2 * screen), DigitChar(numScreens, msg, f, 2 * screen + 1)))
  }

  /** Number of frames of a marquee: none for an empty message; otherwise
      one per character, one for the terminator, and one per digit for the
      message to leave the chain. */
  function FrameCount(numScreens: nat, msg: seq<SChar>): nat {
    if |msg| == 0 then 0 else |msg| + 2 * numScreens + 1
  }

  /** The whole marquee in closed form. */
  function ScrollSpec(numScreens: nat, msg: seq<SChar>): (frames: seq<seq<CharWrite>>)
    ensures |frames| == FrameCount(numScreens, msg)
  {
    seq(FrameCount(numScreens, msg), f requires 0 <= f < FrameCount(numScreens, msg) => FrameSpec(numScreens, msg, f))
  }

  /** `scroll`: the marquee as the driver computes it, with a read pointer
      into the message and two padding cursors. Every frame lists the
      `writeChars` calls it makes, and the result is the closed form
      `ScrollSpec`. The cursors are `char`s as in the driver; the bound on
      `maxNumScreens` keeps them from overflowing, and every read through
      the pointer lies inside the terminated message. */
  method Scroll(reg: Registry, msg: seq<SChar>) returns (frames: seq<seq<CharWrite>>)
    requires reg.Valid()
    requires NulFree(msg)
    ensures frames == ScrollSpec(reg.numScreens, msg)
    ensures msg == [] <==> frames == []
    ensures msg != [] ==> |frames| == |msg| + 2 * reg.numScreens + 1
  {
    frames := [];
    var buf := Terminated(msg);
    // ignore empty strings
    if buf[0] == NUL {
      return;
    }
    var numScreens := reg.numScreens;
    var farRight := 0;
    var exhausted := false;
    var numDigits := numScreens * 2;
    var lastDigit := numDigits - 1;
    // left padding on every digit but the last, no right padding yet
    var highest: SChar := (lastDigit - 1) as SChar;
    var lowest: SChar := (lastDigit + 1) as SChar;

    while lowest >= 0
      invariant |frames| <= |msg| + numDigits + 1
      invariant farRight == if |frames| <= |msg| then |frames| else |msg|
      invariant exhausted <==> |frames| >= |msg|
      invariant lowest as int == if |frames| <= |msg| then numDigits else numDigits + |msg| - |frames|
      invariant highest as int == if numDigits == 0 then -2
                                  else if |frames| < numDigits then numDigits - 2 - |frames|
                                  else -1
      invariant forall k :: 0 <= k < |frames| ==> frames[k] == FrameSpec(numScreens, msg, k)
      decreases |msg| + numDigits + 1 - |frames|
    {
      var frame: seq<CharWrite> := [];
      var screen := numScreens - 1;
      while screen >= 0
        invariant -1 <= screen <= numScreens - 1
        invariant |frame| == numScreens - 1 - screen
        invariant forall j :: 0 <= j < |frame| ==> frame[j] == FrameSpec(numScreens, msg, |frames|)[j]
      {
        // the right-side character
        var thisDigit := screen * 2 + 1;
        var right: SChar;
        if highest as int >= thisDigit {
          right := SPACE;
        } else if lowest as int <= thisDigit {
          right := SPACE;
        } else {
          right := buf[farRight - (lastDigit - thisDigit) + (numDigits - lowest as int)];
        }
        assert right == DigitChar(numScreens, msg, |frames|, thisDigit);
        // the left-side character
        thisDigit := screen * 2;
        var left: SChar;
        if highest as int >= thisDigit {
          left := SPACE;
        } else if lowest as int <= thisDigit {
          left := SPACE;
        } else {
          left := buf[farRight - (lastDigit - thisDigit) + (numDigits - lowest as int)];
        }
        assert left == DigitChar(numScreens, msg, |frames|, thisDigit);
        frame := frame + [CharWrite(screen, left, right)];
        screen := screen - 1;
      }
      assert frame == FrameSpec(numScreens, msg, |frames|);
      frames := frames + [frame];
      // take away a digit of left padding if there is any left
      if highest >= 0 {
        highest := highest - 1;
      }
      if exhausted {
        // one more digit of right padding
        lowest := lowest - 1;
      } else {
        // advance through the message
        farRight := farRight + 1;
        exhausted := buf[farRight] == NUL;
      }
    }
    assert |frames| == FrameCount(numScreens, msg);
  }

  /** The marquee moves one digit to the left per frame: what a digit shows
      in one frame, its left neighbour shows in the next. */
  lemma WindowSlides(numScreens: nat, msg: seq<SChar>, f: int, d: int)
    requires 0 <= d < 2 * numScreens - 1
    ensures DigitChar(numScreens, msg, f + 1, d) == DigitChar(numScreens, msg, f, d + 1)
  {
  }

  /** Every character of the message, and its terminator, passes every digit
      exactly once: at digit `d` it shows in frame `k + (lastDigit - d)` and
      in no other frame, and that frame is part of the marquee. */
  lemma ShownOncePerDigit(numScreens: nat, msg: seq<SChar>, k: int, d: int)
    requires msg != []
    requires 0 <= k <= |msg| && 0 <= d < 2 * numScreens
    ensures 0 <= k + (2 * numScreens - 1 - d) < FrameCount(numScreens, msg)
    ensures forall f :: SourceIndex(numScreens, f, d) == k <==> f == k + (2 * numScreens - 1 - d)
  {
  }

  /** The first frame shows the first character on the rightmost digit and
      nothing else; the last frame is blank everywhere. */
  lemma FirstAndLastFrames(numScreens: nat, msg: seq<SChar>, d: int)
    requires msg != [] && 0 <= d < 2 * numScreens
    ensures DigitChar(numScreens, msg, 0, d) == if d == 2 * numScreens - 1 then msg[0] else SPACE
    ensures DigitChar(numScreens, msg, FrameCount(numScreens, msg) - 1, d) == SPACE
  {
  }

  /** "HI" on one screen: five frames, the message entering on the right,
      filling both digits, and leaving on the left with its terminator
      shown as `font[0]` for one frame on each digit. */
  lemma ScrollHi()
    ensures var H: SChar, I: SChar := 72, 73;
            ScrollSpec(1, [H, I]) ==
              [[CharWrite(0, SPACE, H)],
               [CharWrite(0, H, I)],
               [CharWrite(0, I, NUL)],
               [CharWrite(0, NUL, SPACE)],
               [CharWrite(0, SPACE, SPACE)]]
  {
    var msg: seq<SChar> := [72, 73];
    assert FrameSpec(1, msg, 0) == [CharWrite(0, SPACE, 72)];
    assert FrameSpec(1, msg, 1) == [CharWrite(0, 72, 73)];
    assert FrameSpec(1, msg, 2) == [CharWrite(0, 73, NUL)];
    assert FrameSpec(1, msg, 3) == [CharWrite(0, NUL, SPACE)];
    assert FrameSpec(1, msg, 4) == [CharWrite(0, SPACE, SPACE)];
  }

  /** The font sweep's `char` counter and its `i + 1` stay below 128 only
      when `lastChar` is at most 125. */
  predicate SweepFits() {
    LastChar <= 125
  }

  /** Number of pairs the font sweep writes from `startAt`. */
  function SweepLength(startAt: SChar): nat
    requires SweepFits()
  {
    if startAt as int > LastChar then 0 else (LastChar - startAt as int) / 2 + 1
  }

  /** The font sweep in closed form: pairs `(c, c + 1)` for
      `c = startAt, startAt + 2, ...` while `c` has a font entry. */
  function Sweep(screen: int, startAt: SChar): (writes: seq<CharWrite>)
    requires SweepFits()
    ensures |writes| == SweepLength(startAt)
  {
    seq(SweepLength(startAt), k requires 0 <= k < SweepLength(startAt) =>
      CharWrite(screen, (startAt as int + 2 * k) as SChar, (startAt as int + 2 * k + 1) as SChar))
  }

  /** `digitTest`: shows the font two characters at a time on one screen.
      With `lastChar` at most 125 the `char` counter cannot overflow. */
  method DigitTest(screen: int, startAt: SChar) returns (writes: seq<CharWrite>)
    requires SweepFits()
    ensures writes == Sweep(screen, startAt)
    ensures forall k :: 0 <= k < |writes| ==> writes[k].left as int <= LastChar
    ensures startAt as int + 2 * |writes| > LastChar
  {
    writes := [];
    var i := startAt;
    while i as int <= LastChar
      invariant i as int == startAt as int + 2 * |writes|
      invariant |writes| > 0 ==> i as int <= LastChar + 2
      invariant forall k :: 0 <= k < |writes| ==>
                  writes[k] == CharWrite(screen, (startAt as int + 2 * k) as SChar, (startAt as int + 2 * k + 1) as SChar)
      invariant forall k :: 0 <= k < |writes| ==> writes[k].left as int <= LastChar
      decreases LastChar + 2 - i as int
    {
      writes := writes + [CharWrite(screen, i, i + 1)];
      i := i + 2;
    }
    assert |writes| == SweepLength(startAt);
  }

  /** The sweep shows every character from `startAt` up to `lastChar`, on
      the left digit when it is an even distance from `startAt` and on the
      right digit otherwise. */
  lemma SweepCovers(screen: int, startAt: SChar, c: SChar)
    requires SweepFits()
    requires startAt <= c && c as int <= LastChar
    ensures var k := (c as int - startAt as int) / 2;
            && 0 <= k < |Sweep(screen, startAt)|
            && (if (c as int - startAt as int) % 2 == 0 then Sweep(screen, startAt)[k].left == c
                else Sweep(screen, startAt)[k].right == c)
  {
  }
}
