/** The letter screen: a closed envelope that opens once, and a typewriter
    that reveals the message one character per timeout while the letter is
    open. The reveal effect runs after every change of `isOpen` or of the
    displayed text; here each change and the effect that follows it are one
    atomic step, and each firing of the 50 ms timeout is a call of `Tick`. */
module LoveLetter {

  predicate IsPrefix(p: string, s: string)
  {
    |p| <= |s| && p == s[..|p|]
  }

  /** Length of the displayed prefix after one timeout: a timeout is only
      pending while the letter is open and the prefix is short of the message,
      and it extends the prefix by exactly one character. */
  function TickLength(open: bool, shown: nat, total: nat): (r: nat)
    requires shown <= total
    ensures shown <= r <= total
    ensures r == shown + 1 <==> open && shown < total
    ensures r == shown <==> !open || shown == total
  {
    if open && shown < total then shown + 1 else shown
  }

  /** Length of the displayed prefix after `k` timeouts. */
  function TicksLength(open: bool, shown: nat, total: nat, k: nat): (r: nat)
    requires shown <= total
    ensures shown <= r <= total
    decreases k
  {
    if k == 0 then shown else TicksLength(open, TickLength(open, shown, total), total, k - 1)
  }

  /** While the letter is open, `k` timeouts reveal `k` more characters,
      capped at the message length. */
  lemma {:induction false} TicksWhileOpen(shown: nat, total: nat, k: nat)
    requires shown <= total
    ensures TicksLength(true, shown, total, k) == if shown + k <= total then shown + k else total
    decreases k
  {
    if k > 0 {
      TicksWhileOpen(TickLength(true, shown, total), total, k - 1);
    }
  }

  /** While the letter is closed, timeouts reveal nothing. */
  lemma {:induction false} TicksWhileClosed(shown: nat, total: nat, k: nat)
    requires shown <= total
    ensures TicksLength(false, shown, total, k) == shown
    decreases k
  {
    if k > 0 {
      TicksWhileClosed(shown, total, k - 1);
    }
  }

  /** From an empty prefix, exactly `total` timeouts reveal the whole message
      and no fewer do. */
  lemma FullAfterExactlyLength(total: nat, k: nat)
    ensures TicksLength(true, 0, total, k) == total <==> k >= total
  {
    TicksWhileOpen(0, total, k);
  }

  class Letter {
    const message: string
    var isOpen: bool
    var displayedText: string
    var isTypingComplete: bool

    /** The displayed text is a prefix of the message, and the completion
        flag is set exactly when the whole message is displayed. */
    ghost predicate Valid()
      reads this
    {
      IsPrefix(displayedText, message) &&
      (isTypingComplete <==> |displayedText| == |message|)
    }

    /** Mounting: closed, nothing displayed; the first run of the effect
        already sets the completion flag when the message is empty. */
    constructor (message: string)
      ensures Valid() && this.message == message
      ensures !isOpen && displayedText == ""
      ensures isTypingComplete <==> message == ""
    {
      this.message := message;
      isOpen := false;
      displayedText := "";
      isTypingComplete := |message| == 0;
    }

    /** The Continue button, and with it `onComplete`, is rendered only in the
        open branch and only once typing is complete. */
    predicate ContinueVisible(): (b: bool)
      requires Valid()
      reads this
      ensures b <==> isOpen && displayedText == message
    {
      isOpen && isTypingComplete
    }

    /** A click on the envelope. It only ever sets `isOpen` to true. */
    method OpenEnvelope()
      requires Valid()
      modifies this
      ensures Valid() && isOpen
      ensures displayedText == old(displayedText)
      ensures isTypingComplete == old(isTypingComplete)
    {
      isOpen := true;
    }

    /** One firing of the 50 ms timeout, followed by the effect it triggers. */
    method Tick()
      requires Valid()
      modifies this
      ensures Valid()
      ensures isOpen == old(isOpen)
      ensures |displayedText| == TickLength(isOpen, old(|displayedText|), |message|)
      ensures IsPrefix(old(displayedText), displayedText)
      ensures old(isTypingComplete) ==> isTypingComplete
    {
      if isOpen && |displayedText| < |message| {
        displayedText := message[..|displayedText| + 1];
      }
      if |displayedText| == |message| {
        isTypingComplete := true;
      }
    }

    /** The self-rescheduling timeout firing `k` times in a row. */
    method RunTimer(k: nat)
      requires Valid()
      modifies this
      ensures Valid()
      ensures isOpen == old(isOpen)
      ensures |displayedText| == TicksLength(isOpen, old(|displayedText|), |message|, k)
      ensures IsPrefix(old(displayedText), displayedText)
      ensures old(isTypingComplete) ==> isTypingComplete
    {
      var i := 0;
      while i < k
        invariant 0 <= i <= k
        invariant Valid()
        invariant isOpen == old(isOpen)
        invariant IsPrefix(old(displayedText), displayedText)
        invariant old(isTypingComplete) ==> isTypingComplete
        invariant TicksLength(isOpen, |displayedText|, |message|, k - i)
               == TicksLength(isOpen, old(|displayedText|), |message|, k)
      {
        Tick();
        i := i + 1;
      }
    }
  }

  /** Opening a fresh letter and letting the timer fire once per character
      shows the whole message and makes Continue visible. */
  method ReadWholeLetter(message: string) returns (letter: Letter)
    ensures letter.Valid() && letter.message == message
    ensures letter.displayedText == message
    ensures letter.isTypingComplete && letter.ContinueVisible()
  {
    letter := new Letter(message);
    letter.OpenEnvelope();
    letter.RunTimer(|message|);
    TicksWhileOpen(0, |message|, |message|);
  }
}
