/** Reading the activity stream page after page, alone and while things happen (activity.py). */
module ActivityReading {
  import opened Common
  import opened Sorting
  import opened Activity

  // --------------------------------------------------- walking a still project

  /** Following `next_offset` from `offset` until there is none. */
  function Walk(project: Project, kinds: seq<string>, offset: nat, limit: nat): seq<Item>
    requires Unknown(kinds) == {} && 1 <= limit <= MAX_LIMIT && offset < MAX_OFFSET
    decreases MAX_OFFSET - offset
  {
    var page := Page(project, kinds, offset, limit).value;
    page.items + (if page.nextOffset.Some? then Walk(project, kinds, page.nextOffset.value, limit) else [])
  }

  function Min(a: nat, b: nat): nat {
    if a < b then a else b
  }

  /** Where pages of this size stop: ceil(MAX_OFFSET / limit) pages. */
  function StopAt(limit: nat): nat
    requires limit > 0
  {
    (MAX_OFFSET + limit - 1) / limit * limit
  }

  lemma MulMonotone(a: int, b: int, limit: nat)
    requires a <= b
    ensures a * limit <= b * limit
  {
  }

  /** Page `k` begins before MAX_OFFSET exactly when it ends by the stop. */
  lemma PageBeginsBeforeMax(k: nat, limit: nat)
    requires limit > 0
    ensures StopAt(limit) >= MAX_OFFSET
    ensures k * limit < MAX_OFFSET <==> (k + 1) * limit <= StopAt(limit)
  {
    var q := (MAX_OFFSET + limit - 1) / limit;
    assert q * limit + (MAX_OFFSET + limit - 1) % limit == MAX_OFFSET + limit - 1;
    assert (q - 1) * limit == q * limit - limit;
    assert (k + 1) * limit == k * limit + limit;
    if k < q {
      MulMonotone(k, q - 1, limit);
      MulMonotone(k + 1, q, limit);
    } else {
      MulMonotone(q, k, limit);
    }
  }

  /** Page ends counted from `offset` first pass MAX_OFFSET at `stop`. */
  predicate StopsAt(offset: nat, limit: nat, stop: nat)
    requires limit > 0
    ensures StopsAt(offset, limit, stop) && offset < MAX_OFFSET ==> offset + limit <= stop
    decreases MAX_OFFSET - offset
  {
    if offset >= MAX_OFFSET then offset == stop
    else if offset + limit >= MAX_OFFSET then offset + limit == stop
    else StopsAt(offset + limit, limit, stop)
  }

  lemma {:induction false} PagesStop(k: nat, limit: nat)
    requires 1 <= limit && k * limit < MAX_OFFSET
    ensures StopsAt(k * limit, limit, StopAt(limit))
    decreases MAX_OFFSET - k * limit
  {
    PageBeginsBeforeMax(k, limit);
    PageBeginsBeforeMax(k + 1, limit);
    assert (k + 1) * limit == k * limit + limit;
    if (k + 1) * limit < MAX_OFFSET {
      PagesStop(k + 1, limit);
    } else {
      assert (k + 2) * limit == (k + 1) * limit + limit;
      PageEndsAtStop(k + 1, limit);
    }
  }

  lemma PageEndsAtStop(k: nat, limit: nat)
    requires 1 <= limit && MAX_OFFSET <= k * limit <= StopAt(limit)
    ensures k * limit == StopAt(limit)
  {
    var q := (MAX_OFFSET + limit - 1) / limit;
    assert q * limit + (MAX_OFFSET + limit - 1) % limit == MAX_OFFSET + limit - 1;
    if k < q {
      assert (q - 1) * limit == q * limit - limit;
      MulMonotone(k, q - 1, limit);
    } else {
      MulMonotone(q, k, limit);
    }
  }

  /** From any offset the pages are the stream from there to its end or to the stop: no gap, no repeat. */
  lemma {:induction false} WalkFrom(project: Project, kinds: seq<string>, offset: nat, limit: nat, stop: nat)
    requires Unknown(kinds) == {} && 1 <= limit <= MAX_LIMIT && offset < MAX_OFFSET && StopsAt(offset, limit, stop)
    ensures var all := Stream(project, kinds);
      var end := Min(|all|, stop);
      Walk(project, kinds, offset, limit) == all[Min(offset, end)..end]
    decreases MAX_OFFSET - offset
  {
    var all := Stream(project, kinds);
    WalkStep(project, kinds, offset, limit);
    if |all| > offset + limit && offset + limit < MAX_OFFSET {
      WalkFrom(project, kinds, offset + limit, limit, stop);
    }
    PagesJoin(all, offset, limit, stop);
  }

  lemma WalkStep(project: Project, kinds: seq<string>, offset: nat, limit: nat)
    requires Unknown(kinds) == {} && 1 <= limit <= MAX_LIMIT && offset < MAX_OFFSET
    ensures Walk(project, kinds, offset, limit) == Slice(Stream(project, kinds), offset, limit) +
      (if |Stream(project, kinds)| > offset + limit && offset + limit < MAX_OFFSET
       then Walk(project, kinds, offset + limit, limit) else [])
  {
  }

  lemma PagesJoin(all: seq<Item>, offset: nat, limit: nat, stop: nat)
    requires offset + limit <= stop
    ensures var end := Min(|all|, stop);
      all[Min(offset, end)..end] == Slice(all, offset, limit) + all[Min(offset + limit, end)..end]
  {
  }

  /** Reading a still project page after page gives the stream, up to where paging stops. */
  lemma WalkIsStream(project: Project, kinds: seq<string>, limit: nat)
    requires Unknown(kinds) == {} && 1 <= limit <= MAX_LIMIT
    ensures Walk(project, kinds, 0, limit) == Stream(project, kinds)[..Min(|Stream(project, kinds)|, StopAt(limit))]
  {
    PagesStop(0, limit);
    WalkFrom(project, kinds, 0, limit, StopAt(limit));
  }

  /** Page after page, what is shown goes back in time. */
  lemma WalkIsNewestFirst(project: Project, kinds: seq<string>, limit: nat)
    requires Unknown(kinds) == {} && 1 <= limit <= MAX_LIMIT && WellKept(Feeds(project, kinds))
    ensures NewestFirst(Walk(project, kinds, 0, limit))
  {
    WalkIsStream(project, kinds, limit);
    PageIsNewestFirst(project, kinds, 0, limit);
  }

  // ------------------------------------------------- reading while things happen

  /** Someone paging, and the project as it is now. `at` is the offset to ask for next. */
  datatype Reader = Reader(project: Project, at: nat, more: bool, shown: seq<Item>)

  datatype Event = Happens(project: Project) | Reads(limit: nat)

  function Step(kinds: seq<string>, r: Reader, e: Event): Reader
    requires Unknown(kinds) == {}
  {
    match e
    case Happens(project) => r.(project := project)
    case Reads(limit) =>
      if !r.more then r
      else
        var page := Page(r.project, kinds, r.at, limit).value;
        Reader(r.project, Clamp(r.at, 0, MAX_OFFSET) + Clamp(limit, 1, MAX_LIMIT), page.nextOffset.Some?, r.shown
            + page.items)
  }

  function Run(kinds: seq<string>, r: Reader, events: seq<Event>): Reader
    requires Unknown(kinds) == {}
    decreases |events|
  {
    if events == [] then r else Run(kinds, Step(kinds, r, events[0]), events[1..])
  }

  /** Things happen and nothing is taken away. */
  ghost predicate Grows(kinds: seq<string>, before: Project, after: Project) {
    && WellKept(Feeds(after, kinds))
    && forall x :: x in Stream(before, kinds) ==> x in Stream(after, kinds)
  }

  /** Every `Happens` in a run only adds. */
  ghost predicate OnlyAdds(kinds: seq<string>, project: Project, events: seq<Event>) {
    events != [] ==>
      match events[0]
      case Happens(next) => Grows(kinds, project, next) && OnlyAdds(kinds, next, events[1..])
      case Reads(_) => OnlyAdds(kinds, project, events[1..])
  }

  /** `x` has been shown, or stands at or beyond what will be read next. */
  ghost predicate NotSkipped(kinds: seq<string>, r: Reader, x: Item) {
    || x in r.shown
    || exists i :: r.at <= i < |Stream(r.project, kinds)| && Stream(r.project, kinds)[i] == x
  }

  ghost predicate NoneSkipped(kinds: seq<string>, r: Reader, items: seq<Item>) {
    forall x :: x in items ==> NotSkipped(kinds, r, x)
  }

  /** What stands above `x`. */
  function Above(s: seq<Item>, x: Item): set<Item> {
    set y | y in s && Newer(y, x)
  }

  lemma DescendingDiffer(s: seq<Item>, n: nat)
    requires Descending(s) && n <= |s|
    ensures AllDifferent(s[..n])
  {
    forall i, j | 0 <= i < j < n ensures s[i] != s[j] {
      NewerIsAnOrder(s[i], s[j], s[i]);
    }
  }

  /** An item's position is how many stand above it. */
  lemma PositionIsCount(s: seq<Item>, i: nat)
    requires Descending(s) && i < |s|
    ensures |Above(s, s[i])| == i
  {
    DescendingDiffer(s, i);
    DifferentAreCounted(s[..i]);
    forall y ensures y in Above(s, s[i]) <==> y in SetOf(s[..i]) {
      if y in s && Newer(y, s[i]) {
        var k :| 0 <= k < |s| && s[k] == y;
        NewerIsAnOrder(s[k], s[i], s[k]);
        assert s[..i][k] == y;
      }
      if y in s[..i] {
        var k :| 0 <= k < i && s[..i][k] == y;
        assert s[k] == y;
      }
    }
    assert Above(s, s[i]) == SetOf(s[..i]);
  }

  lemma CountsDiffer(a: set<Item>, b: set<Item>)
    ensures |b| == |a| - |a - b| + |b - a|
  {
    assert a == (a - b) + (a * b) && b == (b - a) + (a * b);
  }

  /** A happening passes `x` over: it is not shown yet, and is taken away, or more is taken away
      above it than it stands beyond what will be read next and what comes above it. */
  ghost predicate PassesOver(kinds: seq<string>, r: Reader, after: Project, x: Item) {
    var known, all := Stream(r.project, kinds), Stream(after, kinds);
    && x !in r.shown
    && (x !in all || r.at + |Above(known, x) - Above(all, x)| > |Above(known, x)| + |Above(all, x) - Above(known, x)|)
  }

  lemma AheadByCount(kinds: seq<string>, project: Project, at: nat, x: Item)
    requires WellKept(Feeds(project, kinds))
    ensures var all := Stream(project, kinds);
      (exists i :: at <= i < |all| && all[i] == x) <==> x in all && at <= |Above(all, x)|
  {
    var all := Stream(project, kinds);
    StreamIsDescending(Feeds(project, kinds));
    if x in all {
      var j :| 0 <= j < |all| && all[j] == x;
      PositionIsCount(all, j);
      if i :| at <= i < |all| && all[i] == x {
        PositionIsCount(all, i);
      }
    }
  }

  /** What is not skipped is still not skipped exactly when the happening does not pass it over. */
  lemma HappeningIsExact(kinds: seq<string>, r: Reader, after: Project, x: Item)
    requires WellKept(Feeds(r.project, kinds)) && WellKept(Feeds(after, kinds)) && NotSkipped(kinds, r, x)
    ensures NotSkipped(kinds, r.(project := after), x) <==> !PassesOver(kinds, r, after, x)
  {
    AheadByCount(kinds, r.project, r.at, x);
    AheadByCount(kinds, after, r.at, x);
    CountsDiffer(Above(Stream(r.project, kinds), x), Above(Stream(after, kinds), x));
  }

  lemma AddingPassesNoneOver(kinds: seq<string>, r: Reader, after: Project, x: Item)
    requires WellKept(Feeds(r.project, kinds)) && Grows(kinds, r.project, after) && NotSkipped(kinds, r, x)
    ensures !PassesOver(kinds, r, after, x)
  {
    AheadByCount(kinds, r.project, r.at, x);
    assert Above(Stream(r.project, kinds), x) - Above(Stream(after, kinds), x) == {};
  }

  lemma ReadingSkipsNone(kinds: seq<string>, r: Reader, limit: nat, x: Item)
    requires Unknown(kinds) == {} && r.more && r.at < MAX_OFFSET && NotSkipped(kinds, r, x)
    ensures NotSkipped(kinds, Step(kinds, r, Reads(limit)), x)
    ensures !Step(kinds, r, Reads(limit)).more && Step(kinds, r, Reads(limit)).at < MAX_OFFSET ==>
      x in Step(kinds, r, Reads(limit)).shown
  {
  }

  /** At each moment of a run, `x` has been shown or stands at or beyond what will be read next. */
  ghost predicate NeverSkipped(kinds: seq<string>, r: Reader, events: seq<Event>, x: Item)
    requires Unknown(kinds) == {}
    decreases |events|
  {
    NotSkipped(kinds, r, x) && (events != [] ==> NeverSkipped(kinds, Step(kinds, r, events[0]), events[1..], x))
  }

  /** No happening of a run passes `x` over. */
  ghost predicate NeverPassedOver(kinds: seq<string>, r: Reader, events: seq<Event>, x: Item)
    requires Unknown(kinds) == {}
    decreases |events|
  {
    events != [] ==>
      && (events[0].Happens? ==> !PassesOver(kinds, r, events[0].project, x))
      && NeverPassedOver(kinds, Step(kinds, r, events[0]), events[1..], x)
  }

  /** Every project of a run is kept as the queries and the ids keep it. */
  ghost predicate AllWellKept(kinds: seq<string>, r: Reader, events: seq<Event>) {
    && WellKept(Feeds(r.project, kinds))
    && forall i :: 0 <= i < |events| && events[i].Happens? ==> WellKept(Feeds(events[i].project, kinds))
  }

  /** Paging goes on below MAX_OFFSET only. */
  predicate CanGoOn(r: Reader) {
    r.more ==> r.at < MAX_OFFSET
  }

  /** An item is skipped at some moment of a run exactly when it was at the start or some happening
      passes it over, however reads, additions and removals interleave. */
  lemma {:induction false} SkippedExactlyWhen(kinds: seq<string>, r: Reader, events: seq<Event>, x: Item)
    requires Unknown(kinds) == {} && AllWellKept(kinds, r, events) && CanGoOn(r)
    ensures NeverSkipped(kinds, r, events, x) <==> NotSkipped(kinds, r, x) && NeverPassedOver(kinds, r, events, x)
    decreases |events|
  {
    if events != [] && NotSkipped(kinds, r, x) {
      var next := Step(kinds, r, events[0]);
      match events[0] {
        case Happens(after) => HappeningIsExact(kinds, r, after, x);
        case Reads(limit) =>
          if r.more {
            ReadingSkipsNone(kinds, r, limit, x);
          }
      }
      assert forall i :: 0 <= i < |events[1..]| ==> events[1..][i] == events[i + 1];
      SkippedExactlyWhen(kinds, next, events[1..], x);
    }
  }

  /** Once paging has ended before MAX_OFFSET, an item that was never skipped has been shown. */
  lemma {:induction false} ShownWhenPagingEnds(kinds: seq<string>, r: Reader, events: seq<Event>, x: Item)
    requires Unknown(kinds) == {} && CanGoOn(r) && NeverSkipped(kinds, r, events, x)
    requires !r.more && r.at < MAX_OFFSET ==> x in r.shown
    ensures var end := Run(kinds, r, events);
      NotSkipped(kinds, end, x) && (!end.more && end.at < MAX_OFFSET ==> x in end.shown)
    decreases |events|
  {
    if events != [] {
      if events[0].Reads? && r.more {
        ReadingSkipsNone(kinds, r, events[0].limit, x);
      }
      ShownWhenPagingEnds(kinds, Step(kinds, r, events[0]), events[1..], x);
    }
  }

  /** Where things are only added, nothing that is not skipped is passed over. */
  lemma {:induction false} AddingSkipsNone(kinds: seq<string>, r: Reader, events: seq<Event>, x: Item)
    requires Unknown(kinds) == {} && WellKept(Feeds(r.project, kinds)) && OnlyAdds(kinds, r.project, events)
    requires NotSkipped(kinds, r, x) && CanGoOn(r)
    ensures NeverSkipped(kinds, r, events, x)
    decreases |events|
  {
    if events != [] {
      match events[0] {
        case Happens(after) =>
          AddingPassesNoneOver(kinds, r, after, x);
          HappeningIsExact(kinds, r, after, x);
        case Reads(limit) =>
          if r.more {
            ReadingSkipsNone(kinds, r, limit, x);
          }
      }
      AddingSkipsNone(kinds, Step(kinds, r, events[0]), events[1..], x);
    }
  }

  /** However reads and additions interleave, nothing there at the start is skipped; and when
      paging ends before MAX_OFFSET, at that moment everything there at the start has been shown. */
  lemma NothingIsSkipped(kinds: seq<string>, r: Reader, events: seq<Event>, items: seq<Item>)
    requires Unknown(kinds) == {} && WellKept(Feeds(r.project, kinds)) && OnlyAdds(kinds, r.project, events)
    requires NoneSkipped(kinds, r, items) && (r.more ==> r.at < MAX_OFFSET)
    requires !r.more && r.at < MAX_OFFSET ==> forall x :: x in items ==> x in r.shown
    ensures var end := Run(kinds, r, events);
      && NoneSkipped(kinds, end, items)
      && (!end.more && end.at < MAX_OFFSET ==> forall x :: x in items ==> x in end.shown)
  {
    forall x | x in items
      ensures var end := Run(kinds, r, events);
        NotSkipped(kinds, end, x) && (!end.more && end.at < MAX_OFFSET ==> x in end.shown)
    {
      AddingSkipsNone(kinds, r, events, x);
      ShownWhenPagingEnds(kinds, r, events, x);
    }
  }

  /** A reader who begins at the top misses nothing that was there. */
  lemma ReaderFromTheTop(kinds: seq<string>, project: Project, events: seq<Event>)
    requires Unknown(kinds) == {} && WellKept(Feeds(project, kinds)) && OnlyAdds(kinds, project, events)
    ensures var end := Run(kinds, Reader(project, 0, true, []), events);
      && NoneSkipped(kinds, end, Stream(project, kinds))
      && (!end.more && end.at < MAX_OFFSET ==> forall x :: x in Stream(project, kinds) ==> x in end.shown)
  {
    var r := Reader(project, 0, true, []);
    forall x | x in Stream(project, kinds) ensures NotSkipped(kinds, r, x) {
      var i :| 0 <= i < |Stream(project, kinds)| && Stream(project, kinds)[i] == x;
    }
    NothingIsSkipped(kinds, r, events, Stream(project, kinds));
  }

  // -------------------------------------------- what taking an item away can do

  lemma {:induction false} SortOfDescending(s: seq<Item>)
    requires Descending(s)
    ensures Sort(NotOlder, s) == s
  {
    if s != [] {
      SortOfDescending(s[1..]);
      if |s| > 1 {
        assert Newer(s[0], s[1]);
        NewerIsAnOrder(s[0], s[1], s[1]);
      }
    }
  }

  /** A project whose only feed is one live feed. */
  function LiveOnly(feed: seq<Item>): Project {
    (kind: string) => if kind == "live" then [feed] else []
  }

  lemma LiveStream(feed: seq<Item>)
    requires Descending(feed)
    ensures Stream(LiveOnly(feed), ["live"]) == feed
  {
    LiveFeeds(feed);
    StreamOfOneFeed(feed);
  }

  lemma StreamOfOneFeed(feed: seq<Item>)
    requires Descending(feed)
    ensures Sort(NotOlder, Flatten([feed])) == feed
  {
    assert [feed][1..] == [] && Flatten([feed]) == feed + Flatten([feed][1..]) == feed;
    SortOfDescending(feed);
  }

  lemma LiveFeeds(feed: seq<Item>)
    ensures Feeds(LiveOnly(feed), ["live"]) == [feed]
  {
    NoOtherFeed(feed, 6);
    assert KINDS[..7] == KINDS && KINDS[..7][..6] == KINDS[..6];
    assert FeedsOf(LiveOnly(feed), ["live"], KINDS) == [] + LiveOnly(feed)(KINDS[6]);
  }

  lemma {:induction false} NoOtherFeed(feed: seq<Item>, n: nat)
    requires n <= 6
    ensures FeedsOf(LiveOnly(feed), ["live"], KINDS[..n]) == []
  {
    if n > 0 {
      NoOtherFeed(feed, n - 1);
      assert KINDS[..n][..n - 1] == KINDS[..n - 1];
    }
  }

  /** A live feed that recovers leaves the stream: paging by position then passes over
      the item that moved up, and ends without having shown it. */
  lemma TakingAwaySkips(a: Item, b: Item, c: Item)
    requires Descending([a, b, c])
    ensures var end := Run(["live"], Reader(LiveOnly([a, b, c]), 0, true, []),
                           [Reads(1), Happens(LiveOnly([b, c])), Reads(1)]);
      b in Stream(LiveOnly([a, b, c]), ["live"]) && end.shown == [a, c] && !end.more
  {
    LiveStream([a, b, c]);
    LiveIsKnown();
    assert [a, b, c][1] == b && Newer([a, b, c][1], [a, b, c][2]);
    var r1, r2 := Reader(LiveOnly([a, b, c]), 1, true, [a]), Reader(LiveOnly([b, c]), 1, true, [a]);
    ReadOne(LiveOnly([a, b, c]), [a, b, c], 0, []);
    RecoveredRead(a, b, c);
    RunThree(Reader(LiveOnly([a, b, c]), 0, true, []), Reads(1), r1, Happens(LiveOnly([b, c])), r2, Reads(1));
  }

  lemma LiveIsKnown()
    ensures Unknown(["live"]) == {}
  {
    assert KINDS[6] == "live";
  }

  /** After `a` has left, a reader at the second position reads `c`. */
  lemma RecoveredRead(a: Item, b: Item, c: Item)
    requires Newer(b, c) && Unknown(["live"]) == {}
    ensures Step(["live"], Reader(LiveOnly([b, c]), 1, true, [a]), Reads(1))
        == Reader(LiveOnly([b, c]), 2, false, [a, c])
  {
    LiveStream([b, c]);
    ReadOne(LiveOnly([b, c]), [b, c], 1, [a]);
    assert [a] + [c] == [a, c];
  }

  lemma ReadOne(project: Project, all: seq<Item>, at: nat, shown: seq<Item>)
    requires Unknown(["live"]) == {} && Stream(project, ["live"]) == all && at < |all| && at < 10
    ensures Step(["live"], Reader(project, at, true, shown), Reads(1))
        == Reader(project, at + 1, |all| > at + 1, shown + [all[at]])
  {
  }

  lemma RunThree(r0: Reader, e1: Event, r1: Reader, e2: Event, r2: Reader, e3: Event)
    requires Unknown(["live"]) == {} && Step(["live"], r0, e1) == r1 && Step(["live"], r1, e2) == r2
    ensures Run(["live"], r0, [e1, e2, e3]) == Step(["live"], r2, e3)
  {
    assert [e1, e2, e3][1..] == [e2, e3] && [e2, e3][1..] == [e3] && [e3][1..] == [];
    assert Run(["live"], r2, [e3]) == Run(["live"], Step(["live"], r2, e3), [e3][1..]);
    assert Run(["live"], r1, [e2, e3]) == Run(["live"], r2, [e2, e3][1..]);
  }
}
