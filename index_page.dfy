/** The page: the current screen, the one presenter rendered for it, and
    the heart layer that stays mounted over every screen. Entering a screen
    mounts its presenter afresh, so its local state starts over; leaving a
    screen unmounts it (the field becomes null). */
module Index {
  import opened Screens
  import LoveLetter
  import PhotoGallery
  import TheQuestion
  import FloatingHearts

  /** The page's photo list has four entries. */
  const PhotoCount: nat := 4

  /** The page mounts the heart layer with twelve ambient hearts. */
  const AmbientCount: nat := 12

  class App {
    const message: string
    const hearts: FloatingHearts.Hearts
    var currentScreen: Screen
    var letter: LoveLetter.Letter?
    var gallery: PhotoGallery.Gallery?
    var question: TheQuestion.Question?

    /** Exactly the current screen's presenter is mounted, if it has state,
        and it is in a state its own component can reach; every click heart
        has its removal scheduled. */
    ghost predicate Valid()
      reads this, letter, gallery, question, hearts
    {
      (letter != null <==> currentScreen == Letter) &&
      (gallery != null <==> currentScreen == Gallery) &&
      (question != null <==> currentScreen == Question) &&
      (letter != null ==> letter.Valid() && letter.message == message) &&
      (gallery != null ==> gallery.Valid() && gallery.photoCount == PhotoCount) &&
      (question != null ==> question.Valid()) &&
      hearts.count == AmbientCount && hearts.Valid()
    }

    constructor (message: string, draws: seq<FloatingHearts.AmbientDraw>)
      requires |draws| == AmbientCount
      ensures Valid() && this.message == message
      ensures currentScreen == Initial()
      ensures fresh(hearts) && hearts.hearts == FloatingHearts.InitialHearts(AmbientCount, draws)
      ensures hearts.clickHearts == [] && hearts.pendingRemovals == []
    {
      this.message := message;
      hearts := new FloatingHearts.Hearts(AmbientCount, draws);
      currentScreen := Welcome;
      letter := null;
      gallery := null;
      question := null;
    }

    /** `onContinue` of the welcome screen. */
    method Continue()
      requires Valid()
      modifies this
      ensures Valid()
      ensures currentScreen == Step(old(currentScreen), OnContinue)
      ensures old(currentScreen) == Welcome ==>
        fresh(letter) && !letter.isOpen && letter.displayedText == ""
      ensures old(currentScreen) != Welcome ==>
        letter == old(letter) && gallery == old(gallery) && question == old(question)
    {
      if currentScreen == Welcome {
        currentScreen := Letter;
        letter := new LoveLetter.Letter(message);
      }
    }

    /** `onComplete` of the letter; its button exists only while the letter
        is open and fully typed. */
    method LetterComplete()
      requires Valid()
      modifies this
      ensures Valid()
      ensures currentScreen ==
        if old(currentScreen == Letter && letter.ContinueVisible())
        then Step(old(currentScreen), OnLetterComplete) else old(currentScreen)
      ensures currentScreen == Gallery && old(currentScreen) == Letter ==>
        fresh(gallery) && gallery.currentIndex == 0
      ensures currentScreen == old(currentScreen) ==>
        letter == old(letter) && gallery == old(gallery) && question == old(question)
    {
      if currentScreen == Letter && letter.ContinueVisible() {
        currentScreen := Gallery;
        letter := null;
        gallery := new PhotoGallery.Gallery(PhotoCount);
      }
    }

    /** `onComplete` of the gallery; its button is there at every index. */
    method GalleryComplete()
      requires Valid()
      modifies this
      ensures Valid()
      ensures currentScreen == Step(old(currentScreen), OnGalleryComplete)
      ensures old(currentScreen) == Gallery ==> fresh(question) && question.noAttempts == 0
      ensures old(currentScreen) != Gallery ==>
        letter == old(letter) && gallery == old(gallery) && question == old(question)
    {
      if currentScreen == Gallery {
        currentScreen := Question;
        gallery := null;
        question := new TheQuestion.Question();
      }
    }

    /** `onYes` of the question. */
    method Yes()
      requires Valid()
      modifies this
      ensures Valid()
      ensures currentScreen == Step(old(currentScreen), OnYes)
      ensures old(currentScreen) != Question ==>
        letter == old(letter) && gallery == old(gallery) && question == old(question)
    {
      if currentScreen == Question {
        currentScreen := Celebration;
        question := null;
      }
    }

    /** `handleReplay`, passed to the celebration as `onReplay`. */
    method Replay()
      requires Valid()
      modifies this
      ensures Valid()
      ensures currentScreen == Step(old(currentScreen), OnReplay)
      ensures letter == old(letter) && gallery == old(gallery) && question == old(question)
    {
      if currentScreen == Celebration {
        currentScreen := Welcome;
      }
    }

    /** A click on the envelope, when the letter is on screen. */
    method OpenEnvelope()
      requires Valid()
      modifies letter
      ensures Valid()
      ensures currentScreen == old(currentScreen) && letter == old(letter)
      ensures letter != null ==>
        letter.isOpen && letter.displayedText == old(letter.displayedText) &&
        letter.isTypingComplete == old(letter.isTypingComplete)
    {
      if letter != null {
        letter.OpenEnvelope();
      }
    }

    /** The letter's typing timeout fires. */
    method LetterTick()
      requires Valid()
      modifies letter
      ensures Valid()
      ensures currentScreen == old(currentScreen) && letter == old(letter)
      ensures letter != null ==>
        letter.isOpen == old(letter.isOpen) &&
        |letter.displayedText| == LoveLetter.TickLength(letter.isOpen, old(|letter.displayedText|), |message|) &&
        (old(letter.isTypingComplete) ==> letter.isTypingComplete)
    {
      if letter != null {
        letter.Tick();
      }
    }

    method NextPhoto()
      requires Valid()
      modifies gallery
      ensures Valid()
      ensures currentScreen == old(currentScreen) && gallery == old(gallery)
      ensures gallery != null ==> gallery.currentIndex == PhotoGallery.NextIndex(old(gallery.currentIndex), PhotoCount)
    {
      if gallery != null {
        gallery.NextPhoto();
      }
    }

    method PrevPhoto()
      requires Valid()
      modifies gallery
      ensures Valid()
      ensures currentScreen == old(currentScreen) && gallery == old(gallery)
      ensures gallery != null ==> gallery.currentIndex == PhotoGallery.PrevIndex(old(gallery.currentIndex))
    {
      if gallery != null {
        gallery.PrevPhoto();
      }
    }

    /** A click on one of the gallery's four dots. */
    method SelectPhoto(index: nat)
      requires Valid() && index < PhotoCount
      modifies gallery
      ensures Valid()
      ensures currentScreen == old(currentScreen) && gallery == old(gallery)
      ensures gallery != null ==> gallery.currentIndex == index
    {
      if gallery != null {
        gallery.SelectDot(index);
      }
    }

    /** The pointer reaches the NO button. */
    method NoButtonApproached(container: TheQuestion.Container, d: TheQuestion.Draws)
      requires Valid()
      modifies question
      ensures Valid()
      ensures currentScreen == old(currentScreen) && question == old(question)
      ensures question != null && container.Absent? ==>
        question.noAttempts == old(question.noAttempts) &&
        question.noButtonPosition == old(question.noButtonPosition)
      ensures question != null && container.Present? ==>
        question.noAttempts == TheQuestion.NextAttempts(old(question.noAttempts)) &&
        question.noButtonPosition == TheQuestion.NewPosition(container.width, container.height, d)
    {
      if question != null {
        question.RunAwayFromCursor(container, d);
      }
    }

    /** A click on the window: the heart layer is enabled on every screen
        but the celebration. */
    method Click(now: int, x: real, y: real, sizes: seq<real>) returns (batch: seq<FloatingHearts.Heart>)
      requires Valid() && |sizes| == FloatingHearts.BurstSize
      modifies hearts
      ensures Valid() && currentScreen == old(currentScreen)
      ensures hearts.hearts == old(hearts.hearts)
      ensures currentScreen == Celebration ==>
        batch == [] && hearts.clickHearts == old(hearts.clickHearts) &&
        hearts.pendingRemovals == old(hearts.pendingRemovals)
      ensures currentScreen != Celebration ==>
        batch == FloatingHearts.Burst(now, x, y, sizes) && hearts.clickHearts == old(hearts.clickHearts) + batch &&
        hearts.pendingRemovals == old(hearts.pendingRemovals) + [batch]
    {
      batch := hearts.HandleClick(HeartsEnabled(currentScreen), now, x, y, sizes);
    }

    /** The oldest pending removal timeout of a click fires, whatever screen
        is shown by then. */
    method HeartsExpire()
      requires Valid() && hearts.pendingRemovals != []
      modifies hearts
      ensures Valid() && currentScreen == old(currentScreen)
      ensures hearts.hearts == old(hearts.hearts)
      ensures hearts.pendingRemovals == old(hearts.pendingRemovals[1..])
      ensures hearts.clickHearts ==
        FloatingHearts.WithoutIds(old(hearts.clickHearts), FloatingHearts.Ids(old(hearts.pendingRemovals[0])))
      ensures hearts.pendingRemovals == [] ==> hearts.clickHearts == []
    {
      hearts.RemoveBatch();
    }
  }

  /** A full pass through the experience and back: every presenter is met
      in its initial state, and replay returns to the welcome screen. */
  method FullPass(message: string, draws: seq<FloatingHearts.AmbientDraw>) returns (app: App)
    requires |draws| == AmbientCount
    ensures app.Valid() && app.currentScreen == Welcome
  {
    app := new App(message, draws);
    app.Continue();
    assert app.currentScreen == Letter;
    app.OpenEnvelope();
    var letter := app.letter;
    letter.RunTimer(|message|);
    LoveLetter.TicksWhileOpen(0, |message|, |message|);
    assert letter.ContinueVisible();
    app.LetterComplete();
    assert app.currentScreen == Gallery;
    app.GalleryComplete();
    assert app.currentScreen == Question;
    app.Yes();
    assert app.currentScreen == Celebration;
    app.Replay();
  }
}
