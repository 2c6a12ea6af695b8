/**
 * The face shown above the mood slider (`src/ui/MoodFace.tsx`): a label
 * and an emoji, each picked by the same two thresholds, 33 and 66.
 */
module MoodFace {

  const BadBelow: int := 33
  const GoodFrom: int := 66

  /** The three bands the slider value falls into. */
  datatype Band = Low | Middle | High

  function BandOf(value: int): (b: Band)
    ensures b == Low <==> value < BadBelow
    ensures b == Middle <==> BadBelow <= value < GoodFrom
    ensures b == High <==> value >= GoodFrom
  {
    if value < BadBelow then Low else if value < GoodFrom then Middle else High
  }

  /** The caption, as the component computes it with its own chained comparisons. */
  function Label(value: int): (r: string)
    ensures r == "BAD" <==> value < BadBelow
    ensures r == "NOT BAD" <==> BadBelow <= value < GoodFrom
    ensures r == "GOOD" <==> value >= GoodFrom
  {
    if value < 33 then "BAD" else if value < 66 then "NOT BAD" else "GOOD"
  }

  /** The face, computed by a second, separate chain of comparisons. */
  function Emoji(value: int): (r: string)
    ensures r == "😞" <==> value < BadBelow
    ensures r == "😐" <==> BadBelow <= value < GoodFrom
    ensures r == "😊" <==> value >= GoodFrom
  {
    if value < 33 then "😞" else if value < 66 then "😐" else "😊"
  }

  function BandLabel(b: Band): string {
    match b
    case Low => "BAD"
    case Middle => "NOT BAD"
    case High => "GOOD"
  }

  function BandEmoji(b: Band): string {
    match b
    case Low => "😞"
    case Middle => "😐"
    case High => "😊"
  }

  /** The caption and the face always come from the same band. */
  lemma {:induction false} FaceMatchesLabel(value: int)
    ensures Label(value) == BandLabel(BandOf(value))
    ensures Emoji(value) == BandEmoji(BandOf(value))
  {
  }

  /** Different bands show different captions and different faces. */
  lemma {:induction false} BandsDistinct(a: Band, b: Band)
    requires a != b
    ensures BandLabel(a) != BandLabel(b) && BandEmoji(a) != BandEmoji(b)
  {
  }
}
