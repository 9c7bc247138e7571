/** Looking up the ranges and events of a timeline by binary search. */
module Timeline {

  datatype DataRange = DataRange(start: int, end: int, value: string)

  datatype Event = Event(at: int, value: string)

  // ----- Ranges -----

  /** The ranges come one after another; the end of one may be the start of the next. */
  ghost predicate Successive(rs: seq<DataRange>) {
    && (forall i :: 0 <= i < |rs| ==> rs[i].start <= rs[i].end)
    && (forall i, j :: 0 <= i < j < |rs| ==> rs[i].end <= rs[j].start)
  }

  predicate Covers(r: DataRange, key: int) {
    r.start <= key <= r.end
  }

  ghost predicate Covered(rs: seq<DataRange>, key: int) {
    exists i :: 0 <= i < |rs| && Covers(rs[i], key)
  }

  /** The range has a point in common with the interval. */
  predicate Meets(r: DataRange, start: int, end: int) {
    r.start <= end && start <= r.end
  }

  /** The range that the binary search of ranges l to u comes upon, or -1. */
  function Found(rs: seq<DataRange>, key: int, l: int, u: int): (i: int)
    requires 0 <= l <= u + 1 <= |rs|
    ensures -1 <= i < |rs| && (i >= 0 ==> Covers(rs[i], key))
    decreases u - l
  {
    if l > u then -1
    else
      var i := (l + u) / 2;
      if Covers(rs[i], key) then i
      else if key < rs[i].start then Found(rs, key, l, i - 1)
      else Found(rs, key, i + 1, u)
  }

  lemma FoundStep(rs: seq<DataRange>, key: int, l: int, u: int, i: int)
    requires 0 <= l <= u < |rs| && i == (l + u) / 2
    ensures Found(rs, key, l, u)
         == if rs[i].start <= key <= rs[i].end then i
            else if key < rs[i].start then Found(rs, key, l, i - 1)
            else Found(rs, key, i + 1, u)
  {
  }

  lemma FoundNothing(rs: seq<DataRange>, key: int, l: int, u: int)
    requires 0 <= l == u + 1 <= |rs|
    ensures Found(rs, key, l, u) == -1
  {
  }

  function Find(rs: seq<DataRange>, key: int): (i: int)
    ensures -1 <= i < |rs| && (i >= 0 ==> Covers(rs[i], key))
  {
    Found(rs, key, 0, |rs| - 1)
  }

  /** The search finds a range wherever there is one. */
  lemma {:induction false} FoundIff(rs: seq<DataRange>, key: int, l: int, u: int)
    requires Successive(rs) && 0 <= l <= u + 1 <= |rs|
    requires forall k :: 0 <= k < l ==> rs[k].end < key
    requires forall k :: u < k < |rs| ==> key < rs[k].start
    ensures Found(rs, key, l, u) == -1 <==> !Covered(rs, key)
    decreases u - l
  {
    if l <= u {
      var i := (l + u) / 2;
      if Covers(rs[i], key) {
      } else if key < rs[i].start {
        FoundIff(rs, key, l, i - 1);
      } else {
        FoundIff(rs, key, i + 1, u);
      }
    }
  }

  lemma FindIff(rs: seq<DataRange>, key: int)
    requires Successive(rs)
    ensures Find(rs, key) == -1 <==> !Covered(rs, key)
  {
    FoundIff(rs, key, 0, |rs| - 1);
  }

  /** The bounds of the slice that `get_ranges` takes. */
  function Bounds(rs: seq<DataRange>, start: int, end: int): (b: (nat, nat))
    ensures b.0 <= |rs| && b.1 <= |rs|
  {
    var s, e := Find(rs, start), Find(rs, end);
    if s == -1 && e == -1 then (0, 0)
    else if s == -1 then (0, e + 1)
    else if e == -1 then (s, |rs|)
    else (s, e + 1)
  }

  class TimelineDataRange {
    var ranges: seq<DataRange>

    constructor ()
      ensures ranges == []
    {
      ranges := [];
    }

    method AddRange(range: DataRange)
      modifies this
      ensures ranges == old(ranges) + [range]
    {
      ranges := ranges + [range];
    }

    method Search(key: int) returns (i: int)
      ensures i == Find(ranges, key) && -1 <= i < |ranges| && (i >= 0 ==> Covers(ranges[i], key))
      ensures Successive(ranges) ==> (i == -1 <==> !Covered(ranges, key))
    {
      if Successive(ranges) {
        FindIff(ranges, key);
      }
      var l, u := 0, |ranges| - 1;
      assert Found(ranges, key, l, u) == Find(ranges, key);
      hide *;
      while l <= u
        invariant 0 <= l <= u + 1 <= |ranges|
        invariant Found(ranges, key, l, u) == Find(ranges, key)
        decreases u - l
      {
        i := (l + u) / 2;
        FoundStep(ranges, key, l, u, i);
        if ranges[i].start <= key <= ranges[i].end {
          return;
        } else if key < ranges[i].start {
          u := i - 1;
        } else {
          l := i + 1;
        }
      }
      FoundNothing(ranges, key, l, u);
      i := -1;
    }

    method GetRangesBounds(start: int, end: int) returns (lo: nat, hi: nat)
      ensures (lo, hi) == Bounds(ranges, start, end)
    {
      var s := Search(start);
      var e := Search(end);
      if s == -1 && e == -1 {
        return 0, 0;
      } else if s == -1 {
        return 0, e + 1;
      } else if e == -1 {
        return s, |ranges|;
      } else {
        return s, e + 1;
      }
    }

    /** On successive ranges the result misses no range that meets the interval, or holds no other,
        exactly under the conditions of `NoneMissedIff` and `NoneExtraIff`. */
    method GetRanges(start: int, end: int) returns (rs: seq<DataRange>)
      ensures var (lo, hi) := Bounds(ranges, start, end);
        && rs == (if lo <= hi then ranges[lo..hi] else [])
        && (Successive(ranges) && start <= end ==>
              && (NoneMissed(ranges, start, end, lo, hi) <==> EndsFound(ranges, start, end))
              && (NoneExtra(ranges, start, end, lo, hi) <==> NothingBeyond(ranges, start, end)))
    {
      var s := Search(start);
      var e := Search(end);
      if Successive(ranges) && start <= end {
        NoneMissedIff(ranges, start, end);
        NoneExtraIff(ranges, start, end);
      }
      if s == -1 && e == -1 {
        return [];
      } else if s == -1 {
        return ranges[0..e + 1];
      } else if e == -1 {
        return ranges[s..|ranges|];
      } else {
        return if s <= e + 1 then ranges[s..e + 1] else [];
      }
    }
  }

  /** Every range that meets the interval is within the bounds. */
  ghost predicate NoneMissed(rs: seq<DataRange>, start: int, end: int, lo: nat, hi: nat) {
    forall k :: 0 <= k < |rs| && Meets(rs[k], start, end) ==> lo <= k < hi
  }

  /** Every range within the bounds meets the interval. */
  ghost predicate NoneExtra(rs: seq<DataRange>, start: int, end: int, lo: nat, hi: nat) {
    forall k :: 0 <= k < |rs| && lo <= k < hi ==> Meets(rs[k], start, end)
  }

  ghost predicate AnyMeets(rs: seq<DataRange>, start: int, end: int) {
    exists k :: 0 <= k < |rs| && Meets(rs[k], start, end)
  }

  /** Some range covers an end of the interval, unless none meets it at all; and where two ranges
      touch at an end of the interval, the search came upon the outer one. */
  ghost predicate EndsFound(rs: seq<DataRange>, start: int, end: int) {
    var s, e := Find(rs, start), Find(rs, end);
    && (s >= 0 || e >= 0 || !AnyMeets(rs, start, end))
    && (s > 0 ==> rs[s - 1].end < start)
    && (0 <= e < |rs| - 1 ==> end < rs[e + 1].start)
  }

  /** If only one end of the interval is covered, no range lies beyond the other. */
  ghost predicate NothingBeyond(rs: seq<DataRange>, start: int, end: int) {
    var s, e := Find(rs, start), Find(rs, end);
    && (s == -1 && e >= 0 ==> start <= rs[0].end)
    && (s >= 0 && e == -1 ==> rs[|rs| - 1].start <= end)
  }

  /** Nothing before range s - 1 reaches further than it, and nothing after e + 1 starts earlier. */
  lemma Outside(rs: seq<DataRange>, s: int, e: int, start: int, end: int)
    requires Successive(rs) && -1 <= s < |rs| && -1 <= e < |rs|
    ensures s > 0 && rs[s - 1].end < start ==> forall k :: 0 <= k < s ==> rs[k].end < start
    ensures 0 <= e < |rs| - 1 && end < rs[e + 1].start ==> forall k :: e < k < |rs| ==> end < rs[k].start
  {
  }

  lemma NoneMissedIff(rs: seq<DataRange>, start: int, end: int)
    requires Successive(rs) && start <= end
    ensures var (lo, hi) := Bounds(rs, start, end);
      NoneMissed(rs, start, end, lo, hi) <==> EndsFound(rs, start, end)
  {
    var s, e := Find(rs, start), Find(rs, end);
    var (lo, hi) := Bounds(rs, start, end);
    Outside(rs, s, e, start, end);
    assert s > 0 ==> rs[s - 1].start <= end;
    assert 0 <= e < |rs| - 1 ==> start <= rs[e + 1].end;
    assert s > 0 && Meets(rs[s - 1], start, end) && NoneMissed(rs, start, end, lo, hi) ==> lo <= s - 1;
    assert 0 <= e < |rs| - 1 && Meets(rs[e + 1], start, end) && NoneMissed(rs, start, end, lo, hi) ==> e + 1 < hi;
    hide Find, Successive;
  }

  lemma NoneExtraIff(rs: seq<DataRange>, start: int, end: int)
    requires Successive(rs) && start <= end
    ensures var (lo, hi) := Bounds(rs, start, end);
      NoneExtra(rs, start, end, lo, hi) <==> NothingBeyond(rs, start, end)
  {
    var (lo, hi) := Bounds(rs, start, end);
    assert NoneExtra(rs, start, end, lo, hi) && lo <= 0 < hi ==> Meets(rs[0], start, end);
    assert NoneExtra(rs, start, end, lo, hi) && lo <= |rs| - 1 < hi ==> Meets(rs[|rs| - 1], start, end);
    hide Find;
  }

  /** Where no two ranges touch, the slice holds all that meet the interval exactly when an end of it
      is covered or nothing meets it; with both ends covered it holds nothing else. */
  lemma ApartIff(rs: seq<DataRange>, start: int, end: int)
    requires Successive(rs) && start <= end
    requires forall i, j :: 0 <= i < j < |rs| ==> rs[i].end < rs[j].start
    ensures var (lo, hi) := Bounds(rs, start, end);
      && (NoneMissed(rs, start, end, lo, hi) <==>
            Covered(rs, start) || Covered(rs, end) || !AnyMeets(rs, start, end))
      && (Covered(rs, start) && Covered(rs, end) ==> NoneExtra(rs, start, end, lo, hi))
  {
    NoneMissedIff(rs, start, end);
    NoneExtraIff(rs, start, end);
    FindIff(rs, start);
    FindIff(rs, end);
    hide Find, Bounds, NoneMissed, NoneExtra;
  }

  /** A range between two gaps is not returned, nor is one that touches the range found; one far
      before an uncovered start is. */
  lemma RangesMissedAndExtra()
    ensures var gap := [DataRange(2, 3, "a")];
      Meets(gap[0], 1, 4) && Bounds(gap, 1, 4) == (0, 0)
    ensures var touching := [DataRange(0, 5, "a"), DataRange(5, 9, "b"), DataRange(9, 12, "c")];
      Successive(touching) && Meets(touching[0], 5, 7) && Bounds(touching, 5, 7) == (1, 2)
    ensures var apart := [DataRange(0, 1, "a"), DataRange(6, 9, "b")];
      !Meets(apart[0], 4, 7) && Bounds(apart, 4, 7) == (0, 2)
  {
    var gap := [DataRange(2, 3, "a")];
    assert Find(gap, 1) == -1 == Find(gap, 4);
    var touching := [DataRange(0, 5, "a"), DataRange(5, 9, "b"), DataRange(9, 12, "c")];
    assert Find(touching, 5) == 1 == Find(touching, 7);
    var apart := [DataRange(0, 1, "a"), DataRange(6, 9, "b")];
    assert Found(apart, 4, 1, 1) == Found(apart, 4, 1, 0) == -1 && Found(apart, 7, 1, 1) == 1;
  }

  // ----- Events -----

  ghost predicate Increasing(es: seq<Event>) {
    forall i, j :: 0 <= i < j < |es| ==> es[i].at < es[j].at
  }

  /** The events from `start` to `end`, by looking at every one. */
  function Between(es: seq<Event>, start: int, end: int): seq<Event> {
    if es == [] then []
    else
      Between(es[..|es| - 1], start, end)
      + (if start <= es[|es| - 1].at <= end then [es[|es| - 1]] else [])
  }

  /** The first event after `end`, if no event is at `end` itself. */
  function NextAfter(es: seq<Event>, end: int): seq<Event> {
    if es == [] || es[0].at == end then []
    else if es[0].at > end then [es[0]]
    else NextAfter(es[1..], end)
  }

  lemma {:induction false} BetweenIsSlice(es: seq<Event>, start: int, end: int, s: nat, e: nat)
    requires Increasing(es) && s <= e <= |es|
    requires forall k :: 0 <= k < s ==> es[k].at < start
    requires forall k :: s <= k < e ==> start <= es[k].at <= end
    requires forall k :: e <= k < |es| ==> es[k].at > end
    ensures Between(es, start, end) == es[s..e]
    decreases |es|
  {
    if es != [] {
      var n := |es| - 1;
      var init := es[..n];
      ShorterSlice(es, s, e);
      if n < s {
        BetweenIsSlice(init, start, end, n, n);
      } else if n < e {
        BetweenIsSlice(init, start, end, s, n);
      } else {
        BetweenIsSlice(init, start, end, s, e);
      }
    }
  }

  /** A slice of a list without its last element. */
  lemma ShorterSlice<T>(es: seq<T>, s: nat, e: nat)
    requires es != [] && s <= e <= |es|
    ensures var n := |es| - 1;
      es[s..e] == if n < s then es[..n][n..n] else if n < e then es[..n][s..n] + [es[n]] else es[..n][s..e]
  {
  }

  lemma {:induction false} NextAfterAt(es: seq<Event>, end: int, e: nat)
    requires Increasing(es) && e <= |es|
    requires forall k :: 0 <= k < e ==> es[k].at < end
    requires e < |es| ==> es[e].at >= end
    ensures NextAfter(es, end) == if e < |es| && es[e].at > end then [es[e]] else []
  {
    if e > 0 {
      NextAfterAt(es[1..], end, e - 1);
    }
  }

  lemma OneFurther<T>(es: seq<T>, s: nat, e: nat)
    requires s <= e <= |es|
    ensures es[s..e] + [] == es[s..e]
    ensures e < |es| ==> es[s..e] + [es[e]] == es[s..e + 1] && es[s..e + 1] + [] == es[s..e + 1]
  {
  }

  /** The slice between the positions of the ends, past the second by one where it can be. */
  lemma EventsAreSlice(es: seq<Event>, start: int, end: int, s: nat, e: nat)
    requires Increasing(es) && start <= end && s <= |es| && e <= |es|
    requires forall k :: 0 <= k < s ==> es[k].at < start
    requires forall k :: s <= k < |es| ==> start <= es[k].at
    requires forall k :: 0 <= k < e ==> es[k].at < end
    requires forall k :: e <= k < |es| ==> end <= es[k].at
    ensures s <= e
    ensures Between(es, start, end) + NextAfter(es, end) == es[s..if e < |es| then e + 1 else |es|]
  {
    assert e < |es| ==> forall k :: e < k < |es| ==> es[e].at < es[k].at;
    hide *;
    NextAfterAt(es, end, e);
    OneFurther(es, s, e);
    if e < |es| && es[e].at == end {
      BetweenIsSlice(es, start, end, s, e + 1);
    } else {
      BetweenIsSlice(es, start, end, s, e);
    }
  }

  class TimelineEvent {
    var events: seq<Event>

    constructor ()
      ensures events == []
    {
      events := [];
    }

    method AddEvent(event: Event)
      modifies this
      ensures events == old(events) + [event]
    {
      events := events + [event];
    }

    /** The position of the first event not before `key`. */
    method Search(key: int) returns (i: nat)
      requires Increasing(events)
      ensures i <= |events|
      ensures forall k :: 0 <= k < i ==> events[k].at < key
      ensures forall k :: i <= k < |events| ==> key <= events[k].at
    {
      var l, u := 0, |events| - 1;
      while l <= u
        invariant 0 <= l <= u + 1 <= |events|
        invariant forall k :: 0 <= k < l ==> events[k].at < key
        invariant forall k :: u < k < |events| ==> key < events[k].at
      {
        i := (l + u) / 2;
        if key == events[i].at {
          return;
        } else if key < events[i].at {
          u := i - 1;
        } else {
          l := i + 1;
        }
      }
      i := l;
    }

    /** The events of the interval, and one more when none is at its end. */
    method GetEvents(start: int, end: int) returns (es: seq<Event>)
      requires Increasing(events) && start <= end
      ensures es == Between(events, start, end) + NextAfter(events, end)
    {
      var s := Search(start);
      var e := Search(end);
      EventsAreSlice(events, start, end, s, e);
      es := events[s..if e < |events| then e + 1 else |events|];
    }
  }
}
