/**
 * The movement classifier `get_movement_emoji`, which every posting script
 * carries as an identical copy: an ordered chain of strict comparisons that
 * maps a percent change to one of eleven markers.
 */
module Movement {

  /** The eleven markers, from the largest rise to the largest fall; Flat is the fall-through. */
  datatype Marker =
    | Dove       // more than +20%
    | Rocket     // (+15, +20]
    | Zap        // (+10, +15]
    | ChartUp    // (+5, +10]
    | ArrowUp    // (+1, +5]
    | Hole       // less than -20%
    | Skull      // [-20, -15)
    | Blood      // [-15, -10)
    | ChartDown  // [-10, -5)
    | ArrowDown  // [-5, -1)
    | Flat       // [-1, +1]

  /** The text the scripts put in a post for each marker. */
  function Glyph(m: Marker): (g: string)
    ensures |g| > 0 && '\n' !in g
  {
    match m
    case Dove => "🕊️"
    case Rocket => "🚀"
    case Zap => "⚡"
    case ChartUp => "📈"
    case ArrowUp => "⬆️"
    case Hole => "🕳️"
    case Skull => "☠️"
    case Blood => "🩸"
    case ChartDown => "📉"
    case ArrowDown => "⬇️"
    case Flat => "↔️"
  }

  /**
   * The band of each marker, written independently of the if/elif chain:
   * bands are closed on the side nearer zero and open on the side away from it.
   */
  predicate InBand(m: Marker, pct: real)
  {
    match m
    case Dove => 20.0 < pct
    case Rocket => 15.0 < pct <= 20.0
    case Zap => 10.0 < pct <= 15.0
    case ChartUp => 5.0 < pct <= 10.0
    case ArrowUp => 1.0 < pct <= 5.0
    case Flat => -1.0 <= pct <= 1.0
    case ArrowDown => -5.0 <= pct < -1.0
    case ChartDown => -10.0 <= pct < -5.0
    case Blood => -15.0 <= pct < -10.0
    case Skull => -20.0 <= pct < -15.0
    case Hole => pct < -20.0
  }

  /** `get_movement_emoji`: the rising checks first, then the falling ones, then flat. */
  function Classify(pct: real): (m: Marker)
    ensures InBand(m, pct)
    ensures forall other: Marker :: InBand(other, pct) ==> other == m
  {
    if pct > 20.0 then Dove
    else if pct > 15.0 then Rocket
    else if pct > 10.0 then Zap
    else if pct > 5.0 then ChartUp
    else if pct > 1.0 then ArrowUp
    else if pct < -20.0 then Hole
    else if pct < -15.0 then Skull
    else if pct < -10.0 then Blood
    else if pct < -5.0 then ChartDown
    else if pct < -1.0 then ArrowDown
    else Flat
  }

  /** Each marker is reached: the classifier maps onto all eleven markers. */
  lemma EveryMarkerReached(m: Marker)
    ensures exists pct: real :: Classify(pct) == m
  {
    var pct: real :=
      match m
      case Dove => 21.0
      case Rocket => 20.0
      case Zap => 15.0
      case ChartUp => 10.0
      case ArrowUp => 5.0
      case Flat => 0.0
      case ArrowDown => -5.0
      case ChartDown => -10.0
      case Blood => -15.0
      case Skull => -20.0
      case Hole => -21.0;
    assert Classify(pct) == m;
  }

  /** The edges named by the scripts' comments: the flat band is closed and the outer bands open. */
  lemma BandEdges()
    ensures Classify(1.0) == Flat && Classify(-1.0) == Flat && Classify(0.0) == Flat
    ensures Classify(-1.0001) == ArrowDown
    ensures Classify(20.0) == Rocket && Classify(-20.0) == Skull
    ensures Classify(15.0) == Zap && Classify(-15.0) == Blood
    ensures Classify(10.0) == ChartUp && Classify(-10.0) == ChartDown
    ensures Classify(5.0) == ArrowUp && Classify(-5.0) == ArrowDown
  {
  }

  /** A larger change never gets a marker of a lower band: the classifier is monotone. */
  function Rank(m: Marker): (k: int)
    ensures -5 <= k <= 5
  {
    match m
    case Hole => -5
    case Skull => -4
    case Blood => -3
    case ChartDown => -2
    case ArrowDown => -1
    case Flat => 0
    case ArrowUp => 1
    case ChartUp => 2
    case Zap => 3
    case Rocket => 4
    case Dove => 5
  }

  lemma ClassifyMonotone(x: real, y: real)
    requires x <= y
    ensures Rank(Classify(x)) <= Rank(Classify(y))
  {
  }

  /** A rising marker exactly above +1%, a falling one exactly below -1%. */
  lemma ClassifySignOfMarker(pct: real)
    ensures Rank(Classify(pct)) > 0 <==> pct > 1.0
    ensures Rank(Classify(pct)) < 0 <==> pct < -1.0
  {
  }
}
