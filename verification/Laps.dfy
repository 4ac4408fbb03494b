/** Selecting the frames of one lap. */
module Laps {
  import opened Telemetry

  predicate Earlier(a: Frame, b: Frame) {
    a.timestampUnixMs < b.timestampUnixMs
  }

  /** The frames of one lap, in their order. */
  function LapFrames(frames: seq<Frame>, lapNumber: int): (r: seq<Frame>)
    ensures forall f :: f in r <==> f in frames && f.lapNumber == lapNumber
  {
    if frames == [] then []
    else
      var last := |frames| - 1;
      assert frames == frames[..last] + [frames[last]];
      LapFrames(frames[..last], lapNumber) + (if frames[last].lapNumber == lapNumber then [frames[last]] else [])
  }

  method CollectLap(lapNumber: int, frames: seq<Frame>) returns (lapFrames: seq<Frame>)
    ensures lapFrames == LapFrames(frames, lapNumber)
  {
    lapFrames := [];
    for i := 0 to |frames|
      invariant lapFrames == LapFrames(frames[..i], lapNumber)
    {
      assert frames[..i + 1][..i] == frames[..i];
      if frames[i].lapNumber == lapNumber {
        lapFrames := lapFrames + [frames[i]];
      }
    }
    assert frames[..|frames|] == frames;
  }
}
