/** The page's screen identifiers and the transitions its presenters trigger.
    Each presenter receives one callback that overwrites the current screen
    with a fixed value; this module states that table and what follows from it. */
module Screens {

  datatype Screen = Welcome | Letter | Gallery | Question | Celebration

  /** The callbacks handed to the presenters: `onContinue` of the welcome
      screen, `onComplete` of the letter and of the gallery, `onYes` of the
      question and `onReplay` of the celebration. */
  datatype Trigger = OnContinue | OnLetterComplete | OnGalleryComplete | OnYes | OnReplay

  /** The screen whose presenter holds the callback. */
  function Presenter(t: Trigger): Screen
  {
    match t
    case OnContinue => Welcome
    case OnLetterComplete => Letter
    case OnGalleryComplete => Gallery
    case OnYes => Question
    case OnReplay => Celebration
  }

  /** The screen value the callback writes. */
  function Target(t: Trigger): Screen
  {
    match t
    case OnContinue => Letter
    case OnLetterComplete => Gallery
    case OnGalleryComplete => Question
    case OnYes => Celebration
    case OnReplay => Welcome
  }

  /** The intended order of the experience, as a cycle. */
  function Successor(s: Screen): Screen
  {
    match s
    case Welcome => Letter
    case Letter => Gallery
    case Gallery => Question
    case Question => Celebration
    case Celebration => Welcome
  }

  /** The one callback that is reachable while `s` is on screen. */
  function TriggerOf(s: Screen): (t: Trigger)
    ensures Presenter(t) == s
    ensures forall u: Trigger :: Presenter(u) == s ==> u == t
  {
    match s
    case Welcome => OnContinue
    case Letter => OnLetterComplete
    case Gallery => OnGalleryComplete
    case Question => OnYes
    case Celebration => OnReplay
  }

  /** The initial screen. */
  function Initial(): (s: Screen)
    ensures s.Welcome?
  {
    Welcome
  }

  /** One trigger: only the rendered presenter's callback can fire, and it
      writes its fixed target. The result is never a skipped screen. */
  function Step(s: Screen, t: Trigger): (r: Screen)
    ensures r == s || r == Successor(s)
    ensures r != s <==> Presenter(t) == s
    ensures Presenter(t) == s ==> r == Successor(s)
  {
    if Presenter(t) == s then Target(t) else s
  }

  /** Click-generated hearts are switched on by the page on every screen but the last. */
  function HeartsEnabled(s: Screen): (b: bool)
    ensures b <==> s != Celebration
    ensures !b ==> Successor(s) == Initial()
  {
    !s.Celebration?
  }

  /** The screen after a sequence of triggers. */
  function Run(s: Screen, ts: seq<Trigger>): Screen
    decreases |ts|
  {
    if ts == [] then s else Run(Step(s, ts[0]), ts[1..])
  }

  /** `k` steps along the cycle. */
  function NextN(s: Screen, k: nat): Screen
    decreases k
  {
    if k == 0 then s else NextN(Successor(s), k - 1)
  }

  /** How many triggers of `ts` moved the screen. */
  function Advances(s: Screen, ts: seq<Trigger>): (n: nat)
    ensures n <= |ts|
    decreases |ts|
  {
    if ts == [] then 0
    else if Presenter(ts[0]) == s then 1 + Advances(Successor(s), ts[1..])
    else Advances(s, ts[1..])
  }

  /** Each trigger in `ts` is the callback of the screen current at its turn. */
  predicate IsValidRun(s: Screen, ts: seq<Trigger>)
    decreases |ts|
  {
    ts == [] || (Presenter(ts[0]) == s && IsValidRun(Successor(s), ts[1..]))
  }

  lemma {:induction false} NextNShift(s: Screen, k: nat)
    ensures NextN(Successor(s), k) == NextN(s, k + 1)
  {
  }

  lemma {:induction false} NextNAdd(s: Screen, j: nat, k: nat)
    ensures NextN(NextN(s, j), k) == NextN(s, j + k)
    decreases j
  {
    if j > 0 {
      NextNAdd(Successor(s), j - 1, k);
    }
  }

  /** Five consecutive valid triggers return to the starting screen. */
  lemma CycleOfFive(s: Screen)
    ensures NextN(s, 5) == s
    ensures forall k: nat :: 0 < k < 5 ==> NextN(s, k) != s
  {
  }

  /** The cycle has period five. */
  lemma {:induction false} NextNMod(s: Screen, k: nat)
    ensures NextN(s, k) == NextN(s, k % 5)
    decreases k
  {
    if k >= 5 {
      CycleOfFive(s);
      NextNAdd(s, 5, k - 5);
      NextNMod(s, k - 5);
    }
  }

  /** A sequence of valid triggers follows the cycle one screen per trigger. */
  lemma {:induction false} ValidRunFollowsCycle(s: Screen, ts: seq<Trigger>)
    requires IsValidRun(s, ts)
    ensures Run(s, ts) == NextN(s, |ts|)
    decreases |ts|
  {
    if ts != [] {
      ValidRunFollowsCycle(Successor(s), ts[1..]);
      NextNShift(s, |ts| - 1);
    }
  }

  /** Triggers that belong to other presenters leave the screen where it is. */
  lemma {:induction false} ForeignTriggersIgnored(s: Screen, ts: seq<Trigger>)
    requires forall i :: 0 <= i < |ts| ==> Presenter(ts[i]) != s
    ensures Run(s, ts) == s
    decreases |ts|
  {
    if ts != [] {
      ForeignTriggersIgnored(s, ts[1..]);
    }
  }

  /** Any sequence of triggers, valid or not, ends on the screen reached by
      following the cycle once per trigger that was accepted. */
  lemma {:induction false} RunIsCyclePosition(s: Screen, ts: seq<Trigger>)
    ensures Run(s, ts) == NextN(s, Advances(s, ts))
    decreases |ts|
  {
    if ts != [] {
      if Presenter(ts[0]) == s {
        RunIsCyclePosition(Successor(s), ts[1..]);
        NextNShift(s, Advances(Successor(s), ts[1..]));
      } else {
        RunIsCyclePosition(s, ts[1..]);
      }
    }
  }

  /** From the initial screen the current screen is determined by the number
      of accepted triggers modulo five. */
  lemma ScreenFromWelcome(ts: seq<Trigger>)
    ensures Run(Initial(), ts) == NextN(Welcome, Advances(Welcome, ts) % 5)
  {
    RunIsCyclePosition(Welcome, ts);
    NextNMod(Welcome, Advances(Welcome, ts));
  }
}
