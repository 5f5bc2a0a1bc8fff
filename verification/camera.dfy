/** The mouse-driven viewpoint of `gameLoop` (main.py:374-389, 921-971): the
    avatar's yaw follows horizontal mouse shifts on terrain levels, and the
    camera pitch follows vertical shifts, clamped to the flex bound. */
module Camera {
  import opened Vectors

  /** Degrees of yaw and of pitch per pixel of mouse shift. */
  const YawRate: real := 0.4
  const PitchRate: real := 0.25
  /** The pitch never leaves [-FlexRotBound, FlexRotBound]. */
  const FlexRotBound: real := 20.0

  /** A horizontal shift of `shiftX` pixels turns the avatar against it: a
      shift right lowers the yaw, a shift left raises it, and a still mouse
      keeps it. */
  function YawStep(yaw: real, shiftX: real): (r: real)
    ensures r < yaw <==> shiftX > 0.0
    ensures r > yaw <==> shiftX < 0.0
    ensures Abs(r - yaw) == Abs(shiftX) * YawRate
  {
    yaw - shiftX * YawRate
  }

  /** The yaw has no bound: two shifts turn the avatar as far as their sum. */
  lemma YawComposes(yaw: real, a: real, b: real)
    ensures YawStep(YawStep(yaw, a), b) == YawStep(yaw, a + b)
  {
  }

  /** A vertical shift of `shiftY` pixels tilts the camera against it; a pitch
      pushed beyond the flex bound stops at the bound. */
  function PitchStep(pitch: real, shiftY: real): (r: real)
    ensures -FlexRotBound <= r <= FlexRotBound
    ensures var t := pitch - shiftY * PitchRate;
      && (-FlexRotBound <= t <= FlexRotBound ==> r == t)
      && (t > FlexRotBound ==> r == FlexRotBound)
      && (t < -FlexRotBound ==> r == -FlexRotBound)
  {
    var shifted := pitch - shiftY * PitchRate;
    if shifted > FlexRotBound then FlexRotBound
    else if shifted < -FlexRotBound then -FlexRotBound
    else shifted
  }

  /** The clamped pitch is the point of the flex range nearest to the shifted
      pitch, and a still mouse leaves an in-range pitch where it is. */
  lemma PitchIsNearest(pitch: real, shiftY: real, q: real)
    requires -FlexRotBound <= q <= FlexRotBound
    ensures Abs(PitchStep(pitch, shiftY) - (pitch - shiftY * PitchRate)) <= Abs(q - (pitch - shiftY * PitchRate))
    ensures -FlexRotBound <= pitch <= FlexRotBound ==> PitchStep(pitch, 0.0) == pitch
  {
  }

  /** Clamping twice with a still mouse in between changes nothing. */
  lemma PitchSettles(pitch: real, shiftY: real)
    ensures PitchStep(PitchStep(pitch, shiftY), 0.0) == PitchStep(pitch, shiftY)
  {
  }
}
