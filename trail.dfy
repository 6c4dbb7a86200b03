/**
 The cleanup of trail batches. Every evasion after the first appends a batch of
 3 trail hearts and schedules a timer that, 800 ms later, drops from the trail
 list every heart whose id is one of that batch's ids. Removal is by id
 membership, so it is exactly as selective as the ids are distinct.
 */
module Trail {
  import opened Hearts

  /** The ids of a batch, in order: what the cleanup timer compares against. */
  function Ids(batch: seq<TrailHeart>): (ids: seq<int>)
    ensures |ids| == |batch|
    ensures forall i :: 0 <= i < |batch| ==> ids[i] == batch[i].id
  {
    seq(|batch|, i requires 0 <= i < |batch| => batch[i].id)
  }

  /** No id occurs in both lists. */
  predicate Disjoint(a: seq<int>, b: seq<int>) {
    forall x :: x in a ==> x !in b
  }

  /** `sub` is `s` with some elements left out and the rest in their original order. */
  ghost predicate Subsequence(sub: seq<TrailHeart>, s: seq<TrailHeart>)
    decreases |s|
  {
    if s == [] then sub == []
    else (sub != [] && sub[0] == s[0] && Subsequence(sub[1..], s[1..])) || Subsequence(sub, s[1..])
  }

  /**
   The trail list after a batch's cleanup timer fires: the hearts whose id is
   not among `batch`, in their original order.
   */
  function RemoveBatch(hearts: seq<TrailHeart>, batch: seq<int>): (r: seq<TrailHeart>)
    ensures |r| <= |hearts|
    ensures forall h :: h in r <==> h in hearts && h.id !in batch
  {
    if hearts == [] then []
    else if hearts[0].id in batch then RemoveBatch(hearts[1..], batch)
    else [hearts[0]] + RemoveBatch(hearts[1..], batch)
  }

  /** Cleanup works heart by heart, so it distributes over concatenation. */
  lemma {:induction false} RemoveBatchAppend(a: seq<TrailHeart>, b: seq<TrailHeart>, batch: seq<int>)
    ensures RemoveBatch(a + b, batch) == RemoveBatch(a, batch) + RemoveBatch(b, batch)
  {
    if a != [] {
      assert (a + b)[1..] == a[1..] + b;
      RemoveBatchAppend(a[1..], b, batch);
    } else {
      assert a + b == b;
    }
  }

  /** A list that holds no heart of the batch is left exactly as it was. */
  lemma {:induction false} RemoveBatchUntouched(hearts: seq<TrailHeart>, batch: seq<int>)
    requires forall h :: h in hearts ==> h.id !in batch
    ensures RemoveBatch(hearts, batch) == hearts
  {
    if hearts != [] {
      RemoveBatchUntouched(hearts[1..], batch);
      assert [hearts[0]] + hearts[1..] == hearts;
    }
  }

  /** What survives the cleanup keeps its original relative order. */
  lemma {:induction false} RemoveBatchKeepsOrder(hearts: seq<TrailHeart>, batch: seq<int>)
    ensures Subsequence(RemoveBatch(hearts, batch), hearts)
  {
    if hearts != [] {
      RemoveBatchKeepsOrder(hearts[1..], batch);
      var rest := RemoveBatch(hearts[1..], batch);
      if hearts[0].id !in batch {
        assert ([hearts[0]] + rest)[1..] == rest;
      }
    }
  }

  /** A timer that fires twice, or after its batch is gone, changes nothing. */
  lemma {:induction false} RemoveBatchIdempotent(hearts: seq<TrailHeart>, batch: seq<int>)
    ensures RemoveBatch(RemoveBatch(hearts, batch), batch) == RemoveBatch(hearts, batch)
  {
    RemoveBatchUntouched(RemoveBatch(hearts, batch), batch);
  }

  /**
   An older batch's cleanup leaves a newer batch whole, in place at the end of
   the list, provided the two batches share no id.
   */
  lemma SparesNewerBatch(hearts: seq<TrailHeart>, newer: seq<TrailHeart>, batch: seq<int>)
    requires Disjoint(batch, Ids(newer))
    ensures RemoveBatch(hearts + newer, batch) == RemoveBatch(hearts, batch) + newer
  {
    RemoveBatchAppend(hearts, newer, batch);
    forall h | h in newer
      ensures h.id !in batch
    {
      var i :| 0 <= i < |newer| && newer[i] == h;
      assert Ids(newer)[i] == h.id;
    }
    RemoveBatchUntouched(newer, batch);
  }

  /** Two cleanups give the same list whichever of their timers fires first. */
  lemma {:induction false} RemoveBatchCommutes(hearts: seq<TrailHeart>, a: seq<int>, b: seq<int>)
    ensures RemoveBatch(RemoveBatch(hearts, a), b) == RemoveBatch(RemoveBatch(hearts, b), a)
  {
    if hearts != [] {
      RemoveBatchCommutes(hearts[1..], a, b);
      var h, rest := hearts[0], hearts[1..];
      if h.id !in a && h.id !in b {
        assert RemoveBatch(hearts, a) == [h] + RemoveBatch(rest, a);
        assert RemoveBatch(hearts, b) == [h] + RemoveBatch(rest, b);
        assert ([h] + RemoveBatch(rest, a))[1..] == RemoveBatch(rest, a);
        assert ([h] + RemoveBatch(rest, b))[1..] == RemoveBatch(rest, b);
      } else if h.id !in a {
        assert ([h] + RemoveBatch(rest, a))[1..] == RemoveBatch(rest, a);
      } else if h.id !in b {
        assert ([h] + RemoveBatch(rest, b))[1..] == RemoveBatch(rest, b);
      }
    }
  }

  /** Three clock readings taken within the same millisecond. */
  function Steady(t: int): (clock: seq<int>)
    ensures |clock| == TrailSize
  {
    [t, t, t]
  }

  /** Clock readings in the order taken: a wall clock that does not run backwards. */
  predicate Ticking(clock: seq<int>) {
    forall i, j :: 0 <= i < j < |clock| ==> clock[i] <= clock[j]
  }

  /**
   Two batches whose three readings each fall in one millisecond, `t1` and `t2`,
   share an id exactly when those milliseconds are less than 3 apart. Then an
   earlier batch's cleanup also drops the colliding hearts of the later one.
   */
  lemma BatchIdsCollide(p1: Point, t1: int, d1: seq<TrailDraw>, p2: Point, t2: int, d2: seq<TrailDraw>)
    requires |d1| == TrailSize && forall i :: 0 <= i < |d1| ==> d1[i].Valid()
    requires |d2| == TrailSize && forall i :: 0 <= i < |d2| ==> d2[i].Valid()
    ensures Disjoint(Ids(TrailBatch(p1, Steady(t1), d1)), Ids(TrailBatch(p2, Steady(t2), d2)))
            <==> (t2 - t1 >= TrailSize || t1 - t2 >= TrailSize)
  {
    var a, b := Ids(TrailBatch(p1, Steady(t1), d1)), Ids(TrailBatch(p2, Steady(t2), d2));
    assert a == [t1, t1 + 1, t1 + 2];
    assert b == [t2, t2 + 1, t2 + 2];
    if t1 <= t2 < t1 + 3 {
      assert a[t2 - t1] == t2 && t2 in b;
    } else if t2 < t1 < t2 + 3 {
      assert b[t1 - t2] == t1 && t1 in a;
    }
  }

  /**
   With a clock that does not run backwards, a batch whose first reading comes at
   least 3 ms after the last reading of an older batch shares no id with it.
   */
  lemma BatchIdsApart(p1: Point, c1: seq<int>, d1: seq<TrailDraw>, p2: Point, c2: seq<int>, d2: seq<TrailDraw>)
    requires |c1| == TrailSize && |d1| == TrailSize && forall i :: 0 <= i < |d1| ==> d1[i].Valid()
    requires |c2| == TrailSize && |d2| == TrailSize && forall i :: 0 <= i < |d2| ==> d2[i].Valid()
    requires Ticking(c1) && Ticking(c2)
    requires c2[0] - c1[TrailSize - 1] >= TrailSize
    ensures Disjoint(Ids(TrailBatch(p1, c1, d1)), Ids(TrailBatch(p2, c2, d2)))
  {
  }

  /**
   A clock tick inside a batch breaks the 3 ms rule for first readings: an older
   batch read at `t, t, t + 1` and a newer one read at `t + 3` both hold the id `t + 3`.
   */
  lemma TickInsideBatchCollides(p1: Point, t: int, d1: seq<TrailDraw>, p2: Point, d2: seq<TrailDraw>)
    requires |d1| == TrailSize && forall i :: 0 <= i < |d1| ==> d1[i].Valid()
    requires |d2| == TrailSize && forall i :: 0 <= i < |d2| ==> d2[i].Valid()
    ensures !Disjoint(Ids(TrailBatch(p1, [t, t, t + 1], d1)), Ids(TrailBatch(p2, Steady(t + 3), d2)))
  {
    var a, b := Ids(TrailBatch(p1, [t, t, t + 1], d1)), Ids(TrailBatch(p2, Steady(t + 3), d2));
    assert a[2] == t + 3 && b[0] == t + 3;
    assert (t + 3) in a && (t + 3) in b;
  }

  /**
   A cleanup on a list whose first `j` hearts carry ids of the batch and whose
   other hearts do not drops exactly those first `j`.
   */
  lemma {:induction false} RemoveBatchPrefix(hearts: seq<TrailHeart>, batch: seq<int>, j: nat)
    requires j <= |hearts|
    requires forall i :: 0 <= i < j ==> hearts[i].id in batch
    requires forall i :: j <= i < |hearts| ==> hearts[i].id !in batch
    ensures RemoveBatch(hearts, batch) == hearts[j..]
  {
    if j == 0 {
      RemoveBatchUntouched(hearts, batch);
    } else {
      RemoveBatchPrefix(hearts[1..], batch, j - 1);
      assert hearts[1..][j - 1..] == hearts[j..];
    }
  }

  /**
   What an older batch's cleanup does to the list made of that batch and a newer
   one, each read within one millisecond, the newer `t2 - t1` ms later, for `0 <= t2 - t1 < 3`: the
   whole older batch goes, and of the newer batch only its last `t2 - t1`
   hearts, those whose ids lie past the older batch's, survive.
   */
  lemma CleanupOfCollidingBatches(p1: Point, t1: int, d1: seq<TrailDraw>,
                                  p2: Point, t2: int, d2: seq<TrailDraw>)
    requires |d1| == TrailSize && forall i :: 0 <= i < |d1| ==> d1[i].Valid()
    requires |d2| == TrailSize && forall i :: 0 <= i < |d2| ==> d2[i].Valid()
    requires t1 <= t2 < t1 + TrailSize
    ensures var older, newer := TrailBatch(p1, Steady(t1), d1), TrailBatch(p2, Steady(t2), d2);
            RemoveBatch(older + newer, Ids(older)) == newer[TrailSize - (t2 - t1)..]
  {
    var older, newer := TrailBatch(p1, Steady(t1), d1), TrailBatch(p2, Steady(t2), d2);
    var ids := Ids(older);
    assert ids == [t1, t1 + 1, t1 + 2];
    var all := older + newer;
    var j := 2 * TrailSize - (t2 - t1);
    forall i | 0 <= i < |all|
      ensures all[i].id == if i < TrailSize then t1 + i else t2 + i - TrailSize
    {
      if i >= TrailSize {
        assert all[i] == newer[i - TrailSize];
      }
    }
    RemoveBatchPrefix(all, ids, j);
    assert all[j..] == newer[TrailSize - (t2 - t1)..];
  }
}
