/** The heart particles drawn over every screen: a fixed pool of ambient
    hearts built once on mount, and the click hearts, five per click, each
    batch removed again by a deferred filter on its ids. The random numbers,
    the click's position in viewport percent and `Date.now()` are parameters;
    the deferred removal is a separate call that receives the batch its
    timeout captured. */
module FloatingHearts {
  import opened RandomDraws

  datatype Heart = Heart(id: int, x: real, y: real, size: real, delay: real, duration: real)

  /** The five random numbers one ambient heart draws. */
  datatype AmbientDraw = AmbientDraw(x: real, y: real, size: real, delay: real, duration: real)

  predicate UnitDraw(d: AmbientDraw)
  {
    Unit(d.x) && Unit(d.y) && Unit(d.size) && Unit(d.delay) && Unit(d.duration)
  }

  /** Ambient heart number `i`. */
  function AmbientHeart(i: int, d: AmbientDraw): (h: Heart)
    ensures h.id == i
    ensures UnitDraw(d) ==> 0.0 <= h.x < 100.0 && 0.0 <= h.y < 100.0
    ensures UnitDraw(d) ==> 15.0 <= h.size < 35.0
    ensures UnitDraw(d) ==> 0.0 <= h.delay < 5.0
    ensures UnitDraw(d) ==> 4.0 <= h.duration < 7.0
  {
    Heart(i, d.x * 100.0, d.y * 100.0, d.size * 20.0 + 15.0, d.delay * 5.0, d.duration * 3.0 + 4.0)
  }

  /** The ambient pool: `count` hearts, the `i`-th with id `i`. */
  function InitialHearts(count: nat, draws: seq<AmbientDraw>): (hs: seq<Heart>)
    requires |draws| == count
    ensures |hs| == count
    ensures forall id :: id in Ids(hs) <==> 0 <= id < count
    ensures forall i :: 0 <= i < count ==> hs[i].id == i
    ensures (forall i :: 0 <= i < count ==> UnitDraw(draws[i])) ==>
      forall h :: h in hs ==> 15.0 <= h.size < 35.0 && 0.0 <= h.delay < 5.0 && 4.0 <= h.duration < 7.0
  {
    var hs := seq(count, i requires 0 <= i < count => AmbientHeart(i, draws[i]));
    assert forall h :: h in hs ==> exists i :: 0 <= i < count && h == hs[i];
    assert forall id :: 0 <= id < count ==> id in Ids(hs) by {
      forall id | 0 <= id < count ensures id in Ids(hs) {
        assert hs[id] in hs;
      }
    }
    hs
  }

  /** The ids of a list of hearts. */
  function Ids(hs: seq<Heart>): set<int>
  {
    set h | h in hs :: h.id
  }

  const BurstSize: nat := 5

  /** The five hearts of one click at time `now` (in milliseconds): ids
      `now` to `now + 4`, staggered by a tenth of a second, two seconds long. */
  function Burst(now: int, x: real, y: real, sizes: seq<real>): (hs: seq<Heart>)
    requires |sizes| == BurstSize
    ensures |hs| == BurstSize
    ensures forall id :: id in Ids(hs) <==> now <= id < now + BurstSize
    ensures forall i :: 0 <= i < BurstSize ==>
      hs[i].id == now + i && hs[i].x == x && hs[i].y == y &&
      hs[i].delay == (i as real) * 0.1 && hs[i].duration == 2.0
    ensures (forall i :: 0 <= i < BurstSize ==> Unit(sizes[i])) ==>
      forall h :: h in hs ==> 10.0 <= h.size < 25.0
  {
    var hs := seq(BurstSize, i requires 0 <= i < BurstSize =>
      Heart(now + i, x, y, sizes[i] * 15.0 + 10.0, (i as real) * 0.1, 2.0));
    assert forall h :: h in hs ==> exists i :: 0 <= i < BurstSize && h == hs[i];
    assert forall id :: now <= id < now + BurstSize ==> id in Ids(hs) by {
      forall id | now <= id < now + BurstSize ensures id in Ids(hs) {
        assert hs[id - now] in hs;
      }
    }
    hs
  }

  /** The deferred removal: keep the hearts whose id matches no id of the
      batch, in their order. */
  function WithoutIds(hs: seq<Heart>, ids: set<int>): (r: seq<Heart>)
    ensures |r| <= |hs|
    ensures forall h :: h in r <==> h in hs && h.id !in ids
    ensures Ids(r) !! ids
    decreases |hs|
  {
    if hs == [] then []
    else if hs[0].id in ids then WithoutIds(hs[1..], ids)
    else [hs[0]] + WithoutIds(hs[1..], ids)
  }

  /** `a` is `b` with some elements left out, order kept. */
  predicate IsSubsequence(a: seq<Heart>, b: seq<Heart>)
    decreases |b|
  {
    a == [] || (b != [] && (if a[0] == b[0] then IsSubsequence(a[1..], b[1..]) else IsSubsequence(a, b[1..])))
  }

  /** The removal keeps the survivors in their original relative order. */
  lemma {:induction false} WithoutIdsKeepsOrder(hs: seq<Heart>, ids: set<int>)
    ensures IsSubsequence(WithoutIds(hs, ids), hs)
    decreases |hs|
  {
    if hs != [] {
      WithoutIdsKeepsOrder(hs[1..], ids);
      var rest := WithoutIds(hs[1..], ids);
      if hs[0].id !in ids {
        assert WithoutIds(hs, ids) == [hs[0]] + rest;
        assert ([hs[0]] + rest)[1..] == rest;
      } else if rest != [] {
        assert rest[0] in rest;
      }
    }
  }

  /** Removing a list of ids none of which occurs changes nothing. */
  lemma {:induction false} WithoutAbsentIds(hs: seq<Heart>, ids: set<int>)
    requires Ids(hs) !! ids
    ensures WithoutIds(hs, ids) == hs
    decreases |hs|
  {
    if hs != [] {
      IdsOfTail(hs);
      WithoutAbsentIds(hs[1..], ids);
    }
  }

  /** The removal acts on each part of a concatenation separately. */
  lemma {:induction false} WithoutIdsAppend(a: seq<Heart>, b: seq<Heart>, ids: set<int>)
    ensures WithoutIds(a + b, ids) == WithoutIds(a, ids) + WithoutIds(b, ids)
    decreases |a|
  {
    if a != [] {
      assert (a + b)[0] == a[0];
      assert (a + b)[1..] == a[1..] + b;
      WithoutIdsAppend(a[1..], b, ids);
    } else {
      assert a + b == b;
    }
  }

  /** A second removal of the same batch changes nothing. */
  lemma WithoutIdsIdempotent(hs: seq<Heart>, ids: set<int>)
    ensures WithoutIds(WithoutIds(hs, ids), ids) == WithoutIds(hs, ids)
  {
  }

  lemma IdsOfTail(hs: seq<Heart>)
    requires hs != []
    ensures Ids(hs) == {hs[0].id} + Ids(hs[1..])
  {
  }

  /** Removing a set that holds every id of the list leaves nothing; in
      particular a batch's own removal leaves none of its hearts. */
  lemma {:induction false} WithoutAllIds(hs: seq<Heart>, ids: set<int>)
    requires Ids(hs) <= ids
    ensures WithoutIds(hs, ids) == []
    decreases |hs|
  {
    if hs != [] {
      IdsOfTail(hs);
      WithoutAllIds(hs[1..], ids);
    }
  }

  /** Two bursts share an id exactly when their timestamps are less than
      five milliseconds apart. */
  lemma BurstIdsDisjoint(t1: int, t2: int, x1: real, y1: real, s1: seq<real>, x2: real, y2: real, s2: seq<real>)
    requires |s1| == BurstSize && |s2| == BurstSize
    ensures Ids(Burst(t1, x1, y1, s1)) !! Ids(Burst(t2, x2, y2, s2)) <==> (t1 - t2 >= 5 || t2 - t1 >= 5)
  {
    if !(t1 - t2 >= 5 || t2 - t1 >= 5) {
      var shared := if t1 <= t2 then t2 else t1;
      assert shared in Ids(Burst(t1, x1, y1, s1)) && shared in Ids(Burst(t2, x2, y2, s2));
    }
  }

  /** When a batch expires after a later batch with no id in common was
      appended, the later batch survives untouched, behind the survivors of
      what came before. */
  lemma ExpiryKeepsDisjointBatch(pre: seq<Heart>, b1: seq<Heart>, b2: seq<Heart>)
    requires Ids(b1) !! Ids(b2)
    ensures WithoutIds(pre + b1 + b2, Ids(b1)) == WithoutIds(pre, Ids(b1)) + b2
  {
    WithoutIdsAppend(pre + b1, b2, Ids(b1));
    WithoutIdsAppend(pre, b1, Ids(b1));
    WithoutAllIds(b1, Ids(b1));
    WithoutAbsentIds(b2, Ids(b1));
    assert WithoutIds(pre, Ids(b1)) + [] == WithoutIds(pre, Ids(b1));
  }

  /** Bursts less than five milliseconds apart collide: the expiry of the
      first also removes at least one heart of the second, early. */
  lemma ExpiryHitsCloseBurst(t1: int, t2: int, x1: real, y1: real, s1: seq<real>, x2: real, y2: real, s2: seq<real>)
    requires |s1| == BurstSize && |s2| == BurstSize
    requires t1 - t2 < 5 && t2 - t1 < 5
    ensures |WithoutIds(Burst(t2, x2, y2, s2), Ids(Burst(t1, x1, y1, s1)))| < BurstSize
  {
    var b1, b2 := Burst(t1, x1, y1, s1), Burst(t2, x2, y2, s2);
    var shared := if t1 <= t2 then t2 else t1;
    var h := b2[shared - t2];
    assert h in b2 && h.id in Ids(b1);
    WithoutIdsDropsMatch(b2, Ids(b1), h);
  }

  /** A removal that hits some heart shortens the list. */
  lemma {:induction false} WithoutIdsDropsMatch(hs: seq<Heart>, ids: set<int>, h: Heart)
    requires h in hs && h.id in ids
    ensures |WithoutIds(hs, ids)| < |hs|
    decreases |hs|
  {
    if hs[0] != h {
      WithoutIdsDropsMatch(hs[1..], ids, h);
    }
  }

  /** The ids of all batches in a queue of scheduled removals. */
  function PendingIds(ps: seq<seq<Heart>>): set<int>
    decreases |ps|
  {
    if ps == [] then {} else Ids(ps[0]) + PendingIds(ps[1..])
  }

  lemma {:induction false} PendingIdsAppend(ps: seq<seq<Heart>>, b: seq<Heart>)
    ensures PendingIds(ps + [b]) == PendingIds(ps) + Ids(b)
    decreases |ps|
  {
    if ps == [] {
      assert [] + [b] == [b];
    } else {
      assert (ps + [b])[1..] == ps[1..] + [b];
      PendingIdsAppend(ps[1..], b);
    }
  }

  lemma IdsAppend(a: seq<Heart>, b: seq<Heart>)
    ensures Ids(a + b) == Ids(a) + Ids(b)
  {
  }

  /** The click hearts after the scheduled removals in `ps` fire, oldest first. */
  function FireAll(hs: seq<Heart>, ps: seq<seq<Heart>>): seq<Heart>
    decreases |ps|
  {
    if ps == [] then hs else FireAll(WithoutIds(hs, Ids(ps[0])), ps[1..])
  }

  /** Two removals in a row are one removal of both batches' ids. */
  lemma {:induction false} WithoutIdsCompose(hs: seq<Heart>, a: set<int>, b: set<int>)
    ensures WithoutIds(WithoutIds(hs, a), b) == WithoutIds(hs, a + b)
    decreases |hs|
  {
    if hs != [] {
      WithoutIdsCompose(hs[1..], a, b);
      if hs[0].id !in a {
        var rest := WithoutIds(hs[1..], a);
        assert WithoutIds(hs, a) == [hs[0]] + rest;
        assert ([hs[0]] + rest)[1..] == rest;
      }
    }
  }

  /** Firing a queue of removals filters once by all of their ids. */
  lemma {:induction false} FireAllIsOneFilter(hs: seq<Heart>, ps: seq<seq<Heart>>)
    ensures FireAll(hs, ps) == WithoutIds(hs, PendingIds(ps))
    decreases |ps|
  {
    if ps == [] {
      WithoutAbsentIds(hs, {});
    } else {
      FireAllIsOneFilter(WithoutIds(hs, Ids(ps[0])), ps[1..]);
      WithoutIdsCompose(hs, Ids(ps[0]), PendingIds(ps[1..]));
    }
  }

  /** No leak: when every click heart belongs to a scheduled removal, firing
      all of them leaves no click heart behind. */
  lemma FireAllLeavesNothing(hs: seq<Heart>, ps: seq<seq<Heart>>)
    requires Ids(hs) <= PendingIds(ps)
    ensures FireAll(hs, ps) == []
  {
    FireAllIsOneFilter(hs, ps);
    WithoutAllIds(hs, PendingIds(ps));
  }

  /** A list of hearts has no ids exactly when it is empty. */
  lemma NoIdsNoHearts(hs: seq<Heart>)
    ensures Ids(hs) == {} <==> hs == []
  {
    if hs != [] {
      assert hs[0].id in Ids(hs);
    }
  }

  class Hearts {
    const count: nat
    var hearts: seq<Heart>
    var clickHearts: seq<Heart>
    /** The removal timeouts scheduled and not yet fired, each with the batch
        it captured, oldest first. All use the same 3000 ms delay, so they
        fire in this order. */
    var pendingRemovals: seq<seq<Heart>>

    /** Every click heart is covered by a scheduled removal. */
    ghost predicate Valid()
      reads this
    {
      Ids(clickHearts) <= PendingIds(pendingRemovals)
    }

    /** Mounting with `count` ambient hearts and no click hearts. */
    constructor (count: nat, draws: seq<AmbientDraw>)
      requires |draws| == count
      ensures Valid() && this.count == count
      ensures hearts == InitialHearts(count, draws)
      ensures clickHearts == [] && pendingRemovals == []
    {
      this.count := count;
      hearts := InitialHearts(count, draws);
      clickHearts := [];
      pendingRemovals := [];
    }

    /** A click anywhere on the window. While disabled nothing happens and
        no removal is scheduled (`batch` is empty); otherwise a burst is
        appended after the existing click hearts, returned as `batch`, and
        its removal is scheduled. */
    method HandleClick(enabled: bool, now: int, x: real, y: real, sizes: seq<real>) returns (batch: seq<Heart>)
      requires Valid() && |sizes| == BurstSize
      modifies this
      ensures Valid() && hearts == old(hearts)
      ensures !enabled ==> batch == [] && clickHearts == old(clickHearts) && pendingRemovals == old(pendingRemovals)
      ensures enabled ==>
        batch == Burst(now, x, y, sizes) && clickHearts == old(clickHearts) + batch &&
        pendingRemovals == old(pendingRemovals) + [batch]
    {
      if !enabled {
        return [];
      }
      batch := Burst(now, x, y, sizes);
      IdsAppend(clickHearts, batch);
      PendingIdsAppend(pendingRemovals, batch);
      clickHearts := clickHearts + batch;
      pendingRemovals := pendingRemovals + [batch];
    }

    /** The oldest scheduled removal fires: every click heart whose id is an
        id of its batch disappears. Once no removal is pending, no click
        heart is left. */
    method RemoveBatch()
      requires Valid() && pendingRemovals != []
      modifies this
      ensures Valid() && hearts == old(hearts)
      ensures pendingRemovals == old(pendingRemovals[1..])
      ensures clickHearts == WithoutIds(old(clickHearts), Ids(old(pendingRemovals[0])))
      ensures pendingRemovals == [] ==> clickHearts == []
    {
      var batch := pendingRemovals[0];
      var kept: seq<Heart> := [];
      var i := 0;
      while i < |clickHearts|
        invariant 0 <= i <= |clickHearts|
        invariant clickHearts == old(clickHearts) && hearts == old(hearts)
        invariant pendingRemovals == old(pendingRemovals)
        invariant kept == WithoutIds(clickHearts[..i], Ids(batch))
      {
        var h := clickHearts[i];
        var matched := false;
        var j := 0;
        while j < |batch|
          invariant 0 <= j <= |batch|
          invariant matched <==> exists k :: 0 <= k < j && batch[k].id == h.id
        {
          if batch[j].id == h.id {
            matched := true;
          }
          j := j + 1;
        }
        assert matched <==> h.id in Ids(batch);
        assert clickHearts[..i + 1] == clickHearts[..i] + [h];
        WithoutIdsAppend(clickHearts[..i], [h], Ids(batch));
        if !matched {
          kept := kept + [h];
        }
        i := i + 1;
      }
      assert clickHearts[..i] == clickHearts;
      assert Ids(kept) <= PendingIds(pendingRemovals[1..]) by {
        forall id | id in Ids(kept) ensures id in PendingIds(pendingRemovals[1..]) {
          var h :| h in kept && h.id == id;
          assert h in clickHearts && id !in Ids(batch);
          assert id in Ids(clickHearts);
        }
      }
      clickHearts := kept;
      pendingRemovals := pendingRemovals[1..];
      if pendingRemovals == [] {
        NoIdsNoHearts(clickHearts);
      }
    }
  }
}
