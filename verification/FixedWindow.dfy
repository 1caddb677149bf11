/** The theory of a counter whose expiry is set only by the hit that creates it:
    the rate-limit counter and the ban-attempt counter both work this way. */
module FixedWindow {
  /** One hit: when, in the window begun when, as the how-manieth, under which limit. */
  datatype Hit = Hit(time: int, start: int, counter: int, limit: int) {
    predicate Allowed() {
      counter <= limit
    }
  }

  /** The live counter, if there is one. */
  datatype Counter = Off | On(value: int, expiry: int)

  function Bump(c: Counter, now: int, w: int): Counter {
    match c
    case Off => On(1, now + w)
    case On(v, e) => On(v + 1, e)
  }

  /** What is left of a counter at a later time. */
  function At(c: Counter, now: int): Counter {
    if c.On? && c.expiry <= now then Off else c
  }

  ghost function CountIn(hits: seq<Hit>, start: int): nat {
    if hits == [] then 0
    else CountIn(hits[..|hits| - 1], start) + (if hits[|hits| - 1].start == start then 1 else 0)
  }

  ghost function AllowedIn(hits: seq<Hit>, start: int): nat {
    if hits == [] then 0
    else
      var h := hits[|hits| - 1];
      AllowedIn(hits[..|hits| - 1], start) + (if h.start == start && h.Allowed() then 1 else 0)
  }

  /** Allowed hits at a time in [from, from + w). */
  ghost function AllowedDuring(hits: seq<Hit>, from: int, w: int): nat {
    if hits == [] then 0
    else
      var h := hits[|hits| - 1];
      AllowedDuring(hits[..|hits| - 1], from, w) + (if from <= h.time < from + w && h.Allowed() then 1 else 0)
  }

  /** Each hit lies in its window and knows how many hits came before it there. */
  ghost predicate HitOk(w: int, hits: seq<Hit>, j: nat)
    requires j < |hits|
  {
    && hits[j].start <= hits[j].time < hits[j].start + w
    && hits[j].counter == 1 + CountIn(hits[..j], hits[j].start)
    && (hits[j].counter == 1 ==> hits[j].time == hits[j].start)
  }

  ghost predicate WindowsApart(w: int, hits: seq<Hit>) {
    forall i, j :: 0 <= i < j < |hits| ==>
      hits[i].start == hits[j].start || hits[i].start + w <= hits[j].start
  }

  /** The history of a counter, and the counter that Redis holds, fit together. */
  ghost predicate Consistent(w: int, hits: seq<Hit>, c: Counter, now: int) {
    && (forall j :: 0 <= j < |hits| ==> HitOk(w, hits, j))
    && WindowsApart(w, hits)
    && match c
       case Off => forall j :: 0 <= j < |hits| ==> hits[j].start + w <= now
       case On(v, e) =>
         && e - w <= now < e
         && v == CountIn(hits, e - w) && v >= 1
         && forall j :: 0 <= j < |hits| ==> hits[j].start == e - w || hits[j].start + w <= e - w
  }

  lemma TimePasses(w: int, hits: seq<Hit>, c: Counter, now: int, later: int)
    requires Consistent(w, hits, c, now) && now <= later && w > 0
    ensures Consistent(w, hits, At(c, later), later)
  {
  }

  lemma {:induction false} FreshWindowIsEmpty(hits: seq<Hit>, start: int)
    requires forall j :: 0 <= j < |hits| ==> hits[j].start != start
    ensures CountIn(hits, start) == 0
  {
    if hits != [] {
      FreshWindowIsEmpty(hits[..|hits| - 1], start);
    }
  }

  /** One more hit. */
  lemma HitKeeps(w: int, hits: seq<Hit>, c: Counter, now: int, limit: int)
    requires Consistent(w, hits, c, now) && w > 0
    ensures var c' := Bump(c, now, w);
            Consistent(w, hits + [Hit(now, c'.expiry - w, c'.value, limit)], c', now)
  {
    var c' := Bump(c, now, w);
    var h := Hit(now, c'.expiry - w, c'.value, limit);
    var hits' := hits + [h];
    assert hits'[..|hits|] == hits;
    if c == Off {
      FreshWindowIsEmpty(hits, now);
    }
    forall j | 0 <= j < |hits'|
      ensures HitOk(w, hits', j)
    {
      if j < |hits| {
        assert HitOk(w, hits, j);
        assert hits'[..j] == hits[..j];
      }
    }
  }

  // ---------------------------------------------------------------------
  // What a consistent history implies
  // ---------------------------------------------------------------------

  ghost predicate LimitsUpTo(hits: seq<Hit>, most: int) {
    forall j :: 0 <= j < |hits| ==> 1 <= hits[j].limit <= most
  }

  /** No window allows more than the largest limit used. */
  lemma {:induction false} WindowBound(w: int, hits: seq<Hit>, start: int, most: nat)
    requires forall j :: 0 <= j < |hits| ==> HitOk(w, hits, j)
    requires LimitsUpTo(hits, most)
    ensures AllowedIn(hits, start) <= most
    ensures AllowedIn(hits, start) <= CountIn(hits, start)
  {
    if hits != [] {
      var n := |hits| - 1;
      var init := hits[..n];
      forall j | 0 <= j < |init|
        ensures HitOk(w, init, j)
      {
        assert HitOk(w, hits, j);
        assert hits[..j] == init[..j];
      }
      WindowBound(w, init, start, most);
      assert HitOk(w, hits, n);
    }
  }

  /** Allowed hits of the window begun at `start` that came before `from`. */
  ghost function AllowedBefore(hits: seq<Hit>, start: int, from: int): nat {
    if hits == [] then 0
    else
      var h := hits[|hits| - 1];
      AllowedBefore(hits[..|hits| - 1], start, from) + (if h.start == start && h.time < from && h.Allowed() then 1 else 0)
  }

  /** If every hit of the interval lies in one of two windows, the interval
      allows at most what the two windows allow in the interval. */
  lemma {:induction false} TwoWindowsCover(hits: seq<Hit>, from: int, w: int, s1: int, s2: int)
    requires s1 != s2
    requires forall j :: 0 <= j < |hits| && from <= hits[j].time < from + w ==>
               hits[j].start == s1 || hits[j].start == s2
    ensures AllowedDuring(hits, from, w) + AllowedBefore(hits, s1, from) <= AllowedIn(hits, s1) + AllowedIn(hits, s2)
  {
    if hits != [] {
      TwoWindowsCover(hits[..|hits| - 1], from, w, s1, s2);
    }
  }

  lemma {:induction false} OneWindowCovers(hits: seq<Hit>, from: int, w: int, s1: int)
    requires forall j :: 0 <= j < |hits| && from <= hits[j].time < from + w ==> hits[j].start == s1
    ensures AllowedDuring(hits, from, w) <= AllowedIn(hits, s1)
  {
    if hits != [] {
      OneWindowCovers(hits[..|hits| - 1], from, w, s1);
    }
  }

  /** A window is begun by its first hit, which is allowed whatever the limit. */
  lemma {:induction false} FirstHitIsAllowed(w: int, hits: seq<Hit>, i: nat, from: int, most: nat)
    requires forall j :: 0 <= j < |hits| ==> HitOk(w, hits, j)
    requires LimitsUpTo(hits, most)
    requires i < |hits| && hits[i].start < from
    ensures AllowedBefore(hits, hits[i].start, from) >= 1
  {
    var n := |hits| - 1;
    var init := hits[..n];
    forall j | 0 <= j < |init|
      ensures HitOk(w, init, j)
    {
      assert HitOk(w, hits, j);
      assert hits[..j] == init[..j];
    }
    if k :| 0 <= k < n && hits[k].start == hits[i].start {
      FirstHitIsAllowed(w, init, k, from, most);
    } else {
      FreshWindowIsEmpty(init, hits[n].start);
      assert HitOk(w, hits, n);
    }
  }

  /** No interval as long as the window allows more than twice the largest limit,
      less one: an interval that meets two windows misses the first hit of the older. */
  lemma IntervalBound(w: int, hits: seq<Hit>, from: int, most: nat)
    requires w > 0 && most > 0
    requires forall j :: 0 <= j < |hits| ==> HitOk(w, hits, j)
    requires WindowsApart(w, hits) && LimitsUpTo(hits, most)
    ensures AllowedDuring(hits, from, w) <= 2 * most - 1
  {
    if i :| 0 <= i < |hits| && from <= hits[i].time < from + w {
      assert HitOk(w, hits, i);
      var s1 := hits[i].start;
      if k :| 0 <= k < |hits| && from <= hits[k].time < from + w && hits[k].start != s1 {
        assert HitOk(w, hits, k);
        TwoWindowsBound(w, hits, from, most, if i < k then i else k, if i < k then k else i);
      } else {
        OneWindowCovers(hits, from, w, s1);
        WindowBound(w, hits, s1, most);
      }
    } else {
      OneWindowCovers(hits, from, w, 0);
      WindowBound(w, hits, 0, most);
    }
  }

  lemma TwoWindowsBound(w: int, hits: seq<Hit>, from: int, most: nat, i: nat, k: nat)
    requires w > 0
    requires forall j :: 0 <= j < |hits| ==> HitOk(w, hits, j)
    requires WindowsApart(w, hits) && LimitsUpTo(hits, most)
    requires i < k < |hits| && hits[i].start != hits[k].start
    requires from <= hits[i].time < from + w && from <= hits[k].time < from + w
    ensures AllowedDuring(hits, from, w) <= 2 * most - 1
  {
    var s1, s2 := hits[i].start, hits[k].start;
    assert HitOk(w, hits, i) && HitOk(w, hits, k);
    forall j | 0 <= j < |hits| && from <= hits[j].time < from + w
      ensures hits[j].start == s1 || hits[j].start == s2
    {
      assert HitOk(w, hits, j);
    }
    TwoWindowsCover(hits, from, w, s1, s2);
    FirstHitIsAllowed(w, hits, i, from, most);
    WindowBound(w, hits, s1, most);
    WindowBound(w, hits, s2, most);
  }

  // ---------------------------------------------------------------------
  // The interval bound is exact
  // ---------------------------------------------------------------------

  /** A history that a counter under limits up to `most` can have. */
  ghost predicate History(w: int, hits: seq<Hit>, most: int) {
    (forall j :: 0 <= j < |hits| ==> HitOk(w, hits, j)) && WindowsApart(w, hits) && LimitsUpTo(hits, most)
  }

  /** One hit at 0, and the others of its window at that window's last moment. */
  ghost function OlderWindow(w: int, most: int, k: nat): seq<Hit> {
    if k == 0 then []
    else if k == 1 then [Hit(0, 0, 1, most)]
    else OlderWindow(w, most, k - 1) + [Hit(w - 1, 0, k, most)]
  }

  /** A full older window, and k hits at the first moment of the next. */
  ghost function BothWindows(w: int, most: nat, k: nat): seq<Hit> {
    if k == 0 then OlderWindow(w, most, most) else BothWindows(w, most, k - 1) + [Hit(w, w, k, most)]
  }

  /** One more hit under the limit `most`: what it adds. */
  lemma AddHit(w: int, hits: seq<Hit>, c: Counter, now: int, most: int)
    requires Consistent(w, hits, c, now) && LimitsUpTo(hits, most) && w > 0 && most > 0
    ensures var c' := Bump(c, now, w);
            var h := Hit(now, c'.expiry - w, c'.value, most);
            && Consistent(w, hits + [h], c', now)
            && LimitsUpTo(hits + [h], most)
            && AllowedDuring(hits + [h], w - 1, w) ==
               AllowedDuring(hits, w - 1, w) + (if w - 1 <= now < w - 1 + w && h.Allowed() then 1 else 0)
  {
    hide Consistent;
    HitKeeps(w, hits, c, now, most);
    var h := Hit(now, Bump(c, now, w).expiry - w, Bump(c, now, w).value, most);
    assert (hits + [h])[..|hits|] == hits;
  }

  lemma {:induction false} OlderWindowCounts(w: int, most: int, k: nat)
    requires w > 0 && 1 <= k <= most
    ensures Consistent(w, OlderWindow(w, most, k), On(k, w), w - 1)
    ensures LimitsUpTo(OlderWindow(w, most, k), most)
    ensures AllowedDuring(OlderWindow(w, most, k), w - 1, w) == if w == 1 then k else k - 1
  {
    hide Consistent;
    hide LimitsUpTo;
    hide AllowedDuring;
    if k == 1 {
      NoHits(w, most);
      AddHit(w, [], Off, 0, most);
      assert [] + [Hit(0, 0, 1, most)] == [Hit(0, 0, 1, most)];
      TimePasses(w, [Hit(0, 0, 1, most)], On(1, w), 0, w - 1);
    } else {
      OlderWindowCounts(w, most, k - 1);
      AddHit(w, OlderWindow(w, most, k - 1), On(k - 1, w), w - 1, most);
    }
  }

  lemma {:induction false} BothWindowsCount(w: int, most: nat, k: nat)
    requires w > 1 && 1 <= most && k <= most
    ensures Consistent(w, BothWindows(w, most, k), if k == 0 then Off else On(k, 2 * w), w)
    ensures LimitsUpTo(BothWindows(w, most, k), most)
    ensures AllowedDuring(BothWindows(w, most, k), w - 1, w) == most - 1 + k
  {
    hide Consistent;
    hide LimitsUpTo;
    hide AllowedDuring;
    if k == 0 {
      OlderWindowCounts(w, most, most);
      TimePasses(w, OlderWindow(w, most, most), On(most, w), w - 1, w);
    } else {
      BothWindowsCount(w, most, k - 1);
      AddHit(w, BothWindows(w, most, k - 1), if k == 1 then Off else On(k - 1, 2 * w), w, most);
    }
  }

  /** For every limit and window length: b bounds the hits allowed in any interval
      of the window's length, over all histories, exactly from 2 * most - 1 on.
      A window of one millisecond is the exception: there it is `most` itself. */
  lemma IntervalBoundIsTight(w: int, most: nat, b: int)
    requires w > 0 && most > 0
    ensures (forall hits: seq<Hit>, from: int :: History(w, hits, most) ==> AllowedDuring(hits, from, w) <= b) <==>
            b >= if w == 1 then most else 2 * most - 1
  {
    hide AllowedDuring;
    forall hits: seq<Hit>, from: int | History(w, hits, most)
      ensures AllowedDuring(hits, from, w) <= if w == 1 then most else 2 * most - 1
    {
      if w == 1 {
        forall j | 0 <= j < |hits| && from <= hits[j].time < from + w
          ensures hits[j].start == from
        {
          assert HitOk(w, hits, j);
        }
        OneWindowCovers(hits, from, w, from);
        WindowBound(w, hits, from, most);
      } else {
        IntervalBound(w, hits, from, most);
      }
    }
    if w == 1 {
      OlderWindowCounts(w, most, most);
    } else {
      BothWindowsCount(w, most, most);
    }
  }

  lemma NoHits(w: int, most: int)
    ensures Consistent(w, [], Off, 0) && LimitsUpTo([], most) && AllowedDuring([], w - 1, w) == 0
  {
  }
}
