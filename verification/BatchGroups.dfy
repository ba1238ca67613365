/** Which requests of a queue share a group. */
module BatchGroups {
  import opened Options
  import opened Json
  import opened CanonicalText
  import opened Batcher

  /** Items `i` and `j` are one read: they have one text, and nothing from the one to the other, themselves
      included, is a write. */
  predicate OneRead(items: seq<Item>, canDedupe: Value -> bool, i: nat, j: nat)
    requires i <= j < |items|
  {
    i == j || (Stringify(items[i].request) == Stringify(items[j].request) && ReadsFrom(items, canDedupe, i, j + 1))
  }

  predicate ReadsFrom(items: seq<Item>, canDedupe: Value -> bool, i: nat, end: nat)
    requires end <= |items|
  {
    forall k | i <= k < end :: canDedupe(items[k].request)
  }

  /** The group that each item went to. */
  ghost function Places(items: seq<Item>, canDedupe: Value -> bool): (p: seq<nat>)
    ensures |p| == |items|
  {
    if items == [] then []
    else
      var n := |items| - 1;
      Places(items[..n], canDedupe) + [PlaceFor(Grouped(items[..n], canDedupe), items[n], canDedupe)]
  }

  predicate Joins(g: Grouping, item: Item, canDedupe: Value -> bool) {
    var key := Stringify(item.request);
    canDedupe(item.request) && key in g.segment && g.segment[key] < |g.groups|
  }

  function PlaceFor(g: Grouping, item: Item, canDedupe: Value -> bool): nat {
    if Joins(g, item, canDedupe) then g.segment[Stringify(item.request)] else |g.groups|
  }

  /** The items that went to group `q`, in order. */
  function Gathered(items: seq<Item>, p: seq<nat>, q: nat): seq<Item>
    requires |p| == |items|
  {
    if items == [] then []
    else
      var n := |items| - 1;
      Gathered(items[..n], p[..n], q) + if p[n] == q then [items[n]] else []
  }

  /** The segment knows the reads since the last write, and where they are. */
  ghost predicate SegmentExact(items: seq<Item>, canDedupe: Value -> bool, segment: map<string, nat>, p: seq<nat>)
    requires |p| == |items|
  {
    && (forall i: nat | i < |items| && ReadsFrom(items, canDedupe, i, |items|) ::
          Stringify(items[i].request) in segment && segment[Stringify(items[i].request)] == p[i])
    && (forall key | key in segment :: HeldSince(items, canDedupe, segment[key], p, key))
  }

  ghost predicate HeldSince(items: seq<Item>, canDedupe: Value -> bool, q: nat, p: seq<nat>, key: string)
    requires |p| == |items|
  {
    exists i: nat | i < |items| ::
      Stringify(items[i].request) == key && p[i] == q && ReadsFrom(items, canDedupe, i, |items|)
  }

  ghost predicate PlacesExact(items: seq<Item>, canDedupe: Value -> bool, p: seq<nat>, count: nat)
    requires |p| == |items|
  {
    && (forall k | 0 <= k < |p| :: p[k] < count)
    && (forall i: nat, j: nat | i <= j < |items| :: p[i] == p[j] <==> OneRead(items, canDedupe, i, j))
  }

  ghost predicate GroupsExact(items: seq<Item>, p: seq<nat>, groups: seq<Group>)
    requires |p| == |items|
  {
    forall q | 0 <= q < |groups| ::
      groups[q].queued != [] && groups[q].queued == Gathered(items, p, q)
      && groups[q].request == groups[q].queued[0].request
  }

  lemma {:induction false} NoneGathered(items: seq<Item>, p: seq<nat>, q: nat)
    requires |p| == |items| && forall k | 0 <= k < |p| :: p[k] < q
    ensures Gathered(items, p, q) == []
  {
    if items != [] { NoneGathered(items[..|items| - 1], p[..|items| - 1], q); }
  }

  lemma GroupedSnoc(before: seq<Item>, canDedupe: Value -> bool, last: Item)
    ensures Grouped(before + [last], canDedupe) == AddItem(Grouped(before, canDedupe), last, canDedupe)
    ensures Places(before + [last], canDedupe)
         == Places(before, canDedupe) + [PlaceFor(Grouped(before, canDedupe), last, canDedupe)]
  {
    assert (before + [last])[..|before|] == before;
  }

  lemma ReadsSnoc(before: seq<Item>, canDedupe: Value -> bool, last: Item, i: nat)
    requires i <= |before|
    ensures ReadsFrom(before + [last], canDedupe, i, |before| + 1)
       <==> ReadsFrom(before, canDedupe, i, |before|) && canDedupe(last.request)
  {
    var items := before + [last];
    assert items[|before|] == last;
    assert forall k | i <= k < |before| :: items[k] == before[k];
  }

  lemma OneReadBefore(before: seq<Item>, canDedupe: Value -> bool, last: Item, i: nat, j: nat)
    requires i <= j < |before|
    ensures OneRead(before + [last], canDedupe, i, j) <==> OneRead(before, canDedupe, i, j)
  {
    var items := before + [last];
    assert forall k | i <= k <= j :: items[k] == before[k];
  }

  lemma GatheredSnoc(before: seq<Item>, p: seq<nat>, last: Item, place: nat, q: nat)
    requires |p| == |before|
    ensures Gathered(before + [last], p + [place], q) == Gathered(before, p, q) + if place == q then [last] else []
  {
    assert (before + [last])[..|before|] == before && (p + [place])[..|before|] == p;
  }

  lemma GroupsStep(before: seq<Item>, p: seq<nat>, g: Grouping, canDedupe: Value -> bool, last: Item)
    requires |p| == |before| && GroupsExact(before, p, g.groups) && PlacesExact(before, canDedupe, p, |g.groups|)
    ensures GroupsExact(before + [last], p + [PlaceFor(g, last, canDedupe)], AddItem(g, last, canDedupe).groups)
  {
    var place := PlaceFor(g, last, canDedupe);
    var after := AddItem(g, last, canDedupe).groups;
    NoneGathered(before, p, |g.groups|);
    forall q | 0 <= q < |after|
      ensures after[q].queued != [] && after[q].queued == Gathered(before + [last], p + [place], q)
           && after[q].request == after[q].queued[0].request
    {
      GatheredSnoc(before, p, last, place, q);
      if q < |g.groups| {
        assert g.groups[q].queued == Gathered(before, p, q);
        assert g.groups[q].queued + [] == g.groups[q].queued;
      } else {
        assert [] + [last] == [last];
      }
    }
  }

  lemma SegmentInRange(before: seq<Item>, p: seq<nat>, g: Grouping, canDedupe: Value -> bool, key: string)
    requires |p| == |before| && SegmentExact(before, canDedupe, g.segment, p)
    requires PlacesExact(before, canDedupe, p, |g.groups|) && key in g.segment
    ensures g.segment[key] < |g.groups|
  {
    assert HeldSince(before, canDedupe, g.segment[key], p, key);
  }

  /** Every read since the last write is known to the segment. */
  lemma SegmentKnows(before: seq<Item>, p: seq<nat>, g: Grouping, canDedupe: Value -> bool, last: Item, i: nat)
    requires |p| == |before| && i <= |before| && SegmentExact(before, canDedupe, g.segment, p)
    requires PlacesExact(before, canDedupe, p, |g.groups|)
    requires ReadsFrom(before + [last], canDedupe, i, |before| + 1)
    ensures var key := Stringify((before + [last])[i].request);
            var segment := AddItem(g, last, canDedupe).segment;
            key in segment && segment[key] == (p + [PlaceFor(g, last, canDedupe)])[i]
  {
    ReadsSnoc(before, canDedupe, last, i);
    var own := Stringify(last.request);
    if own in g.segment { SegmentInRange(before, p, g, canDedupe, own); }
    if i < |before| { assert (before + [last])[i] == before[i]; }
  }

  /** And what the segment knows is such a read. */
  lemma SegmentHolds(before: seq<Item>, p: seq<nat>, g: Grouping, canDedupe: Value -> bool, last: Item, key: string)
    requires |p| == |before| && SegmentExact(before, canDedupe, g.segment, p)
    requires key in AddItem(g, last, canDedupe).segment
    ensures HeldSince(before + [last], canDedupe, AddItem(g, last, canDedupe).segment[key],
                      p + [PlaceFor(g, last, canDedupe)], key)
  {
    var items, ps := before + [last], p + [PlaceFor(g, last, canDedupe)];
    var n := |before|;
    if key == Stringify(last.request) && !Joins(g, last, canDedupe) {
      ReadsSnoc(before, canDedupe, last, n);
      assert items[n] == last && ps[n] == |g.groups| && ReadsFrom(items, canDedupe, n, |items|);
    } else {
      assert HeldSince(before, canDedupe, g.segment[key], p, key);
      var i: nat :| i < n && Stringify(before[i].request) == key && p[i] == g.segment[key]
                    && ReadsFrom(before, canDedupe, i, n);
      ReadsSnoc(before, canDedupe, last, i);
      assert items[i] == before[i] && ps[i] == p[i] && ReadsFrom(items, canDedupe, i, |items|);
    }
  }

  lemma SegmentStep(before: seq<Item>, p: seq<nat>, g: Grouping, canDedupe: Value -> bool, last: Item)
    requires |p| == |before| && SegmentExact(before, canDedupe, g.segment, p)
    requires PlacesExact(before, canDedupe, p, |g.groups|)
    ensures SegmentExact(before + [last], canDedupe, AddItem(g, last, canDedupe).segment,
                         p + [PlaceFor(g, last, canDedupe)])
  {
    var items, ps := before + [last], p + [PlaceFor(g, last, canDedupe)];
    var segment := AddItem(g, last, canDedupe).segment;
    forall i: nat | i < |items| && ReadsFrom(items, canDedupe, i, |items|)
      ensures Stringify(items[i].request) in segment && segment[Stringify(items[i].request)] == ps[i]
    {
      SegmentKnows(before, p, g, canDedupe, last, i);
    }
    forall key | key in segment ensures HeldSince(items, canDedupe, segment[key], ps, key) {
      SegmentHolds(before, p, g, canDedupe, last, key);
    }
  }

  lemma PlacesStep(before: seq<Item>, p: seq<nat>, g: Grouping, canDedupe: Value -> bool, last: Item)
    requires |p| == |before| && SegmentExact(before, canDedupe, g.segment, p)
    requires PlacesExact(before, canDedupe, p, |g.groups|)
    ensures PlacesExact(before + [last], canDedupe, p + [PlaceFor(g, last, canDedupe)],
                        |AddItem(g, last, canDedupe).groups|)
  {
    var items, ps := before + [last], p + [PlaceFor(g, last, canDedupe)];
    var n := |before|;
    forall i: nat, j: nat | i <= j < |items| ensures ps[i] == ps[j] <==> OneRead(items, canDedupe, i, j) {
      if j < n {
        assert ps[i] == p[i] && ps[j] == p[j];
        OneReadBefore(before, canDedupe, last, i, j);
      } else if i < n {
        assert ps[i] == p[i] && items[i] == before[i] && items[n] == last;
        LastJoins(before, canDedupe, g, p, last, i);
        ReadsSnoc(before, canDedupe, last, i);
      }
    }
  }

  /** Where the next item goes is where an earlier one went exactly when they are one read. */
  lemma LastJoins(before: seq<Item>, canDedupe: Value -> bool, g: Grouping, p: seq<nat>, last: Item, i: nat)
    requires |p| == |before| && i < |before|
    requires SegmentExact(before, canDedupe, g.segment, p) && PlacesExact(before, canDedupe, p, |g.groups|)
    ensures p[i] == PlaceFor(g, last, canDedupe)
       <==> Stringify(before[i].request) == Stringify(last.request) && canDedupe(last.request)
            && ReadsFrom(before, canDedupe, i, |before|)
  {
    var own := Stringify(last.request);
    if Joins(g, last, canDedupe) && p[i] == g.segment[own] {
      assert HeldSince(before, canDedupe, g.segment[own], p, own);
      var k: nat :| k < |before| && Stringify(before[k].request) == own && p[k] == g.segment[own]
                    && ReadsFrom(before, canDedupe, k, |before|);
      if i <= k {
        assert OneRead(before, canDedupe, i, k);
      } else {
        assert OneRead(before, canDedupe, k, i);
      }
    }
  }

  /** Two calls share a group exactly when they are one read; a group holds its calls in order and sends the
      request of the first. */
  lemma {:induction false} GroupedExactly(items: seq<Item>, canDedupe: Value -> bool)
    ensures var g, p := Grouped(items, canDedupe), Places(items, canDedupe);
            && PlacesExact(items, canDedupe, p, |g.groups|)
            && GroupsExact(items, p, g.groups)
            && SegmentExact(items, canDedupe, g.segment, p)
  {
    if items != [] {
      var before, last := items[..|items| - 1], items[|items| - 1];
      var g, p := Grouped(before, canDedupe), Places(before, canDedupe);
      assert items == before + [last];
      GroupedExactly(before, canDedupe);
      GroupedSnoc(before, canDedupe, last);
      PlacesStep(before, p, g, canDedupe, last);
      GroupsStep(before, p, g, canDedupe, last);
      SegmentStep(before, p, g, canDedupe, last);
    }
  }
}
