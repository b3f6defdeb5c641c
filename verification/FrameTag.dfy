/** The sequence tag that BroadcastFrame puts in front of a frame and parseTaggedFrame takes off. */
module FrameTag {
  import opened Wrappers
  import opened Text
  import opened Frames

  function Tag(sequence: nat, frame: string): string {
    FormatNat(sequence) + "\n" + frame
  }

  function ParseTag(raw: string): Option<(nat, string)> {
    if |raw| > MAX_ENCODED_FRAME_BYTES + 21 then None
    else match IndexOf(raw, '\n')
      case None => None
      case Some(newline) =>
        if newline < 1 || newline > 20 then None
        else match ParseUint(raw[..newline])
          case None => None
          case Some(sequence) =>
            var frame := raw[newline + 1..];
            if sequence == 0 || |frame| == 0 || |frame| > MAX_ENCODED_FRAME_BYTES then None
            else Some((sequence, frame))
  }

  /** Every 64-bit sequence number but zero, on every frame that may be sent, survives the trip. */
  lemma TagRoundTrip(sequence: nat, frame: string)
    requires 1 <= sequence <= MAX_UINT64
    requires 0 < |frame| <= 131072
    ensures ParseTag(Tag(sequence, frame)) == Some((sequence, frame))
  {
    var digits := FormatNat(sequence);
    var raw := Tag(sequence, frame);
    assert |digits| <= 20 by {
      TwentyDigits();
      FormatNatLength(sequence, 20);
    }
    assert '\n' !in digits;
    IndexOfFirst(digits, '\n', frame);
    assert raw[..|digits|] == digits;
    assert raw[|digits| + 1..] == frame;
    ParseUintInverse(sequence);
  }

  lemma TwentyDigits()
    ensures MAX_UINT64 < Pow10(20)
  {
    assert Pow10(4) == 10_000 by { assert Pow10(2) == 100; }
    assert Pow10(8) == 100_000_000 by { assert Pow10(6) == 1_000_000; }
    assert Pow10(12) == 1_000_000_000_000 by { assert Pow10(10) == 10_000_000_000; }
    assert Pow10(16) == 10_000_000_000_000_000 by { assert Pow10(14) == 100_000_000_000_000; }
    assert Pow10(20) == 100_000_000_000_000_000_000 by { assert Pow10(18) == 1_000_000_000_000_000_000; }
  }

  /** A tag past 64 bits is refused. */
  lemma TagOverflow(sequence: nat, frame: string)
    requires sequence > MAX_UINT64
    ensures ParseTag(Tag(sequence, frame)) == None
  {
    FormatNatInverse(sequence);
    assert '\n' !in FormatNat(sequence);
    ParseTagExactly(Tag(sequence, frame), FormatNat(sequence), frame);
  }

  /**
   What is accepted from the network: at most twenty digits that spell a nonzero 64-bit number,
   a newline, and a frame within the size limit; nothing else.
   */
  lemma ParseTagExactly(raw: string, digits: string, frame: string)
    requires '\n' !in digits && raw == digits + "\n" + frame
    ensures ParseTag(raw).Some? <==>
              && 1 <= |digits| <= 20 && AllDigits(digits) && 1 <= NatValue(digits) <= MAX_UINT64
              && 0 < |frame| <= 131072
    ensures ParseTag(raw).Some? ==> ParseTag(raw).value == (NatValue(digits), frame)
  {
    IndexOfFirst(digits, '\n', frame);
    assert raw[..|digits|] == digits;
    assert raw[|digits| + 1..] == frame;
  }
}
