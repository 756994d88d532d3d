/** The photo gallery: an index into the photo list moved by the previous
    and next arrows and by the row of dots, one dot per photo. */
module PhotoGallery {

  /** The index after the next arrow: it moves forward unless it is already
      at the last photo. */
  function NextIndex(i: int, n: nat): (r: int)
    requires 0 <= i
    ensures 0 <= r && (i < n ==> r < n)
    ensures r == i <==> i >= n - 1
    ensures r != i ==> r == i + 1
  {
    if i < n - 1 then i + 1 else i
  }

  /** The index after the previous arrow: it moves back unless it is already
      at the first photo. */
  function PrevIndex(i: int): (r: int)
    requires 0 <= i
    ensures 0 <= r <= i
    ensures r == i <==> i == 0
    ensures r != i ==> r == i - 1
  {
    if i > 0 then i - 1 else i
  }

  /** The index after `k` presses of the next arrow. */
  function NextTimes(i: int, n: nat, k: nat): (r: int)
    requires 0 <= i
    ensures i <= r
    decreases k
  {
    if k == 0 then i else NextTimes(NextIndex(i, n), n, k - 1)
  }

  /** The index after `k` presses of the previous arrow. */
  function PrevTimes(i: int, k: nat): (r: int)
    requires 0 <= i
    ensures 0 <= r <= i
    decreases k
  {
    if k == 0 then i else PrevTimes(PrevIndex(i), k - 1)
  }

  /** From a valid index, `k` next presses advance by `k`, stopping at the
      last photo. */
  lemma {:induction false} NextTimesStopsAtLast(i: int, n: nat, k: nat)
    requires 0 <= i < n
    ensures NextTimes(i, n, k) == if i + k < n then i + k else n - 1
    decreases k
  {
    if k > 0 {
      NextTimesStopsAtLast(NextIndex(i, n), n, k - 1);
    }
  }

  /** `k` previous presses go back by `k`, stopping at the first photo. */
  lemma {:induction false} PrevTimesStopsAtFirst(i: int, k: nat)
    requires 0 <= i
    ensures PrevTimes(i, k) == if i >= k then i - k else 0
    decreases k
  {
    if k > 0 {
      PrevTimesStopsAtFirst(PrevIndex(i), k - 1);
    }
  }

  /** From the first photo, `n - 1` next presses reach the last one, and
      more presses change nothing. */
  lemma FromFirstToLast(n: nat, k: nat)
    requires 0 < n
    ensures k >= n - 1 ==> NextTimes(0, n, k) == n - 1
    ensures k < n - 1 ==> NextTimes(0, n, k) == k
  {
    NextTimesStopsAtLast(0, n, k);
  }

  class Gallery {
    const photoCount: nat
    var currentIndex: int

    /** The index names a photo; with no photos it stays at 0. */
    ghost predicate Valid()
      reads this
    {
      0 <= currentIndex && (currentIndex < photoCount || currentIndex == 0)
    }

    constructor (photoCount: nat)
      ensures Valid() && this.photoCount == photoCount
      ensures currentIndex == 0
    {
      this.photoCount := photoCount;
      currentIndex := 0;
    }

    /** `isLastPhoto`, which also disables the next arrow. */
    predicate IsLastPhoto()
      reads this
    {
      currentIndex == photoCount - 1
    }

    /** The next arrow is disabled exactly when pressing it would do nothing. */
    predicate NextDisabled(): (b: bool)
      requires Valid()
      reads this
      ensures photoCount > 0 ==> (b <==> NextIndex(currentIndex, photoCount) == currentIndex)
    {
      IsLastPhoto()
    }

    /** The previous arrow is disabled exactly when pressing it would do nothing. */
    predicate PrevDisabled(): (b: bool)
      requires Valid()
      reads this
      ensures b <==> PrevIndex(currentIndex) == currentIndex
    {
      currentIndex == 0
    }

    method NextPhoto()
      requires Valid()
      modifies this
      ensures Valid()
      ensures currentIndex == NextIndex(old(currentIndex), photoCount)
    {
      if currentIndex < photoCount - 1 {
        currentIndex := currentIndex + 1;
      }
    }

    method PrevPhoto()
      requires Valid()
      modifies this
      ensures Valid()
      ensures currentIndex == PrevIndex(old(currentIndex))
    {
      if currentIndex > 0 {
        currentIndex := currentIndex - 1;
      }
    }

    /** A click on dot `index`; a dot exists for each photo. */
    method SelectDot(index: nat)
      requires index < photoCount
      modifies this
      ensures Valid()
      ensures currentIndex == index
    {
      currentIndex := index;
    }
  }

  /** Four photos, next pressed three times from the first: the last photo
      is shown, the next arrow is disabled, and a fourth press changes nothing. */
  method FourPhotoScenario() returns (g: Gallery)
    ensures g.Valid() && g.photoCount == 4
    ensures g.currentIndex == 3 && g.NextDisabled()
  {
    g := new Gallery(4);
    g.NextPhoto();
    g.NextPhoto();
    g.NextPhoto();
    assert g.NextDisabled();
    g.NextPhoto();
  }
}
