/** The question screen: a YES button that advances the page, and a NO
    button that jumps to a new position whenever the pointer reaches it,
    counting the attempts and changing its label. The random numbers the
    jump draws and the container's size are parameters. */
module TheQuestion {
  import opened RandomDraws

  /** The labels of the NO button, indexed by the attempt counter. */
  const NoMessages: seq<string> := [
    "No",
    "Are you sure Fuleidevi?",
    "Achaaa babyyyy?",
    "Think again Gandu!",
    "Please? \U{1F97A}",
    "Pretty please?",
    "With a cherry on top?",
    "I'll be sad \U{1F622}",
    "You're breaking my heart!",
    "Just say yes!"
  ]

  const LastMessage: nat := |NoMessages| - 1

  /** The attempt counter after one evasion: one more, saturating at the
      last label. */
  function NextAttempts(n: nat): (r: nat)
    requires n <= LastMessage
    ensures r <= LastMessage && n <= r
    ensures r == n <==> n == LastMessage
    ensures r != n ==> r == n + 1
  {
    if n + 1 < LastMessage then n + 1 else LastMessage
  }

  /** The counter after `k` evasions starting from `n`. */
  function AttemptsAfter(n: nat, k: nat): (r: nat)
    requires n <= LastMessage
    ensures n <= r <= LastMessage
    decreases k
  {
    if k == 0 then n else AttemptsAfter(NextAttempts(n), k - 1)
  }

  /** The NO button's label for an attempt count. */
  function Label(n: nat): (s: string)
    requires n <= LastMessage
    ensures s in NoMessages
    ensures n == 0 ==> s == "No"
    ensures n == LastMessage ==> s == "Just say yes!"
  {
    NoMessages[n]
  }

  /** The aside about the button having a mind of its own. */
  predicate AsideShown(n: nat)
  {
    n >= 3
  }

  /** From a fresh screen, the counter after `k` evasions is `k`, capped at 9. */
  lemma {:induction false} AttemptsFromZero(n: nat, k: nat)
    requires n <= LastMessage
    ensures AttemptsAfter(n, k) == if n + k <= LastMessage then n + k else LastMessage
    decreases k
  {
    if k > 0 {
      AttemptsFromZero(NextAttempts(n), k - 1);
    }
  }

  /** After `k` evasions the label reads "Just say yes!" exactly from the
      ninth on, and the aside is shown exactly from the third on. */
  lemma LabelAndAsideAfter(k: nat)
    ensures Label(AttemptsAfter(0, k)) == "Just say yes!" <==> k >= 9
    ensures AsideShown(AttemptsAfter(0, k)) <==> k >= 3
  {
    AttemptsFromZero(0, k);
    var n := AttemptsAfter(0, k);
    if n < 9 {
      assert Label(n) == NoMessages[n];
    }
  }

  /** The container's bounding box; absent when the container is not mounted. */
  datatype Container = Absent | Present(width: real, height: real)

  datatype Position = Position(x: real, y: real)

  /** The random numbers one evasion draws, in the order the code draws them:
      a uniform coordinate per axis, a coin per axis, and the coordinate of
      the biased jump when the coin comes up. */
  datatype Draws = Draws(x: real, y: real, coinX: real, biasX: real, coinY: real, biasY: real)

  predicate UnitDraws(d: Draws)
  {
    Unit(d.x) && Unit(d.y) && Unit(d.coinX) && Unit(d.biasX) && Unit(d.coinY) && Unit(d.biasY)
  }

  const ButtonWidth: real := 140.0
  const ButtonHeight: real := 56.0
  const Margin: real := 40.0

  /** The biased jump into the band `[0, span * max)`. */
  function NearBand(max: real, bias: real, span: real): real
  {
    bias * max * span
  }

  /** The biased jump into the band `[far * max, (far + span) * max)`. */
  function FarBand(max: real, bias: real, far: real, span: real): real
  {
    max * far + bias * max * span
  }

  /** One coordinate of the new position. `extent` is the container's size
      on this axis, `max` the largest coordinate that keeps the button
      inside, and `far`/`span` the biased jump's start and width as fractions
      of `max`. When the coin exceeds one half, a uniform coordinate in the
      near half of the container is replaced by one in the far band, and one
      in the far half by one in the near band. */
  function Axis(extent: real, max: real, r: real, coin: real, bias: real, far: real, span: real): real
  {
    var v := r * max;
    if coin > 0.5 then
      (if v < extent / 2.0 then FarBand(max, bias, far, span) else NearBand(max, bias, span))
    else v
  }

  /** The position an evasion jumps to. */
  function NewPosition(width: real, height: real, d: Draws): Position
  {
    var maxX := width - ButtonWidth - Margin;
    var maxY := height - ButtonHeight - Margin;
    Position(Axis(width, maxX, d.x, d.coinX, d.biasX, 0.7, 0.3),
             Axis(height, maxY, d.y, d.coinY, d.biasY, 0.6, 0.4))
  }

  lemma ScaleWithin(a: real, m: real)
    requires 0.0 <= a <= 1.0 && 0.0 <= m
    ensures 0.0 <= a * m <= m
  {
  }

  /** Both bands of the biased jump lie in `[0, max]`. */
  lemma BandsWithin(max: real, bias: real, far: real, span: real)
    requires 0.0 <= max && Unit(bias)
    requires 0.0 <= far && 0.0 <= span && far + span <= 1.0
    ensures 0.0 <= NearBand(max, bias, span) <= span * max
    ensures 0.0 <= FarBand(max, bias, far, span) <= max
  {
    var a := bias * max;
    ScaleWithin(bias, max);
    assert 0.0 <= a <= max;
    assert 0.0 <= a * span <= max * span;
    assert max * far + max * span == (far + span) * max;
    ScaleWithin(far + span, max);
  }

  /** Every branch of one coordinate stays in `[0, max]`. */
  lemma AxisWithin(extent: real, max: real, r: real, coin: real, bias: real, far: real, span: real)
    requires 0.0 <= max && Unit(r) && Unit(bias)
    requires 0.0 <= far && 0.0 <= span && far + span <= 1.0
    ensures 0.0 <= Axis(extent, max, r, coin, bias, far, span) <= max
  {
    ScaleWithin(r, max);
    ScaleWithin(span, max);
    BandsWithin(max, bias, far, span);
  }

  lemma ScaleWithinNegative(a: real, m: real)
    requires 0.0 <= a <= 1.0 && m <= 0.0
    ensures m <= a * m <= 0.0
  {
  }

  /** With a negative bound both bands lie in `[max, 0]`. */
  lemma BandsWithinNegative(max: real, bias: real, far: real, span: real)
    requires max <= 0.0 && Unit(bias)
    requires 0.0 <= far && 0.0 <= span && far + span <= 1.0
    ensures max <= NearBand(max, bias, span) <= 0.0
    ensures max <= FarBand(max, bias, far, span) <= 0.0
  {
    BandsWithin(-max, bias, far, span);
    assert NearBand(max, bias, span) == -NearBand(-max, bias, span);
    assert FarBand(max, bias, far, span) == -FarBand(-max, bias, far, span);
  }

  /** When the container is narrower (or lower) than one button plus margin,
      the bound is negative and every branch lands in `[max, 0]`: the code
      does not guard against this, and the button then sticks out of the
      container's left (or top) edge by up to `-max`. */
  lemma AxisWithinNegative(extent: real, max: real, r: real, coin: real, bias: real, far: real, span: real)
    requires max <= 0.0 && Unit(r) && Unit(bias)
    requires 0.0 <= far && 0.0 <= span && far + span <= 1.0
    ensures max <= Axis(extent, max, r, coin, bias, far, span) <= 0.0
  {
    ScaleWithinNegative(r, max);
    BandsWithinNegative(max, bias, far, span);
  }

  /** With draws in `[0, 1)` and a container at least one button plus margin
      wide and high, the new position keeps the whole button inside. */
  lemma PositionWithinBounds(width: real, height: real, d: Draws)
    requires UnitDraws(d)
    requires width - ButtonWidth - Margin >= 0.0 && height - ButtonHeight - Margin >= 0.0
    ensures 0.0 <= NewPosition(width, height, d).x <= width - ButtonWidth - Margin
    ensures 0.0 <= NewPosition(width, height, d).y <= height - ButtonHeight - Margin
  {
    AxisWithin(width, width - ButtonWidth - Margin, d.x, d.coinX, d.biasX, 0.7, 0.3);
    AxisWithin(height, height - ButtonHeight - Margin, d.y, d.coinY, d.biasY, 0.6, 0.4);
  }

  /** In a container narrower than one button plus margin the new left
      offset is never positive and never below `width - 180`. */
  lemma PositionInNarrowContainer(width: real, height: real, d: Draws)
    requires UnitDraws(d)
    requires width - ButtonWidth - Margin < 0.0
    ensures width - ButtonWidth - Margin <= NewPosition(width, height, d).x <= 0.0
  {
    AxisWithinNegative(width, width - ButtonWidth - Margin, d.x, d.coinX, d.biasX, 0.7, 0.3);
  }

  class Question {
    var noButtonPosition: Position
    var noAttempts: nat

    ghost predicate Valid()
      reads this
    {
      noAttempts <= LastMessage
    }

    constructor ()
      ensures Valid()
      ensures noAttempts == 0 && noButtonPosition == Position(0.0, 0.0)
    {
      noButtonPosition := Position(0.0, 0.0);
      noAttempts := 0;
    }

    /** The NO button's current label. */
    function CurrentLabel(): (s: string)
      requires Valid()
      reads this
      ensures s == NoMessages[noAttempts]
      ensures noAttempts == LastMessage <==> s == "Just say yes!"
    {
      Label(noAttempts)
    }

    predicate AsideVisible()
      reads this
    {
      AsideShown(noAttempts)
    }

    /** Pointer enter or touch start on the NO button. Without a mounted
        container nothing happens; otherwise the button jumps and the counter
        advances. It never reaches the page's screen state. */
    method RunAwayFromCursor(container: Container, d: Draws)
      requires Valid()
      modifies this
      ensures Valid()
      ensures container.Absent? ==> noAttempts == old(noAttempts) && noButtonPosition == old(noButtonPosition)
      ensures container.Present? ==>
        noAttempts == NextAttempts(old(noAttempts)) &&
        noButtonPosition == NewPosition(container.width, container.height, d)
    {
      if container.Absent? {
        return;
      }
      noButtonPosition := NewPosition(container.width, container.height, d);
      noAttempts := if noAttempts + 1 < LastMessage then noAttempts + 1 else LastMessage;
    }
  }

  /** Twelve evasions against a mounted container on a fresh screen: the
      label is the last message from the ninth evasion on, and the aside is up. */
  method TwelveEvasions(width: real, height: real, d: Draws) returns (q: Question)
    ensures q.Valid()
    ensures q.noAttempts == LastMessage && q.CurrentLabel() == "Just say yes!"
    ensures q.AsideVisible()
  {
    q := new Question();
    var i := 0;
    while i < 12
      invariant 0 <= i <= 12
      invariant q.Valid()
      invariant q.noAttempts == if i <= LastMessage then i else LastMessage
    {
      q.RunAwayFromCursor(Present(width, height), d);
      i := i + 1;
    }
  }
}
