/** Things opened recently: a list kept short at every visit (recent.ts). */
module Recent {

  datatype RecentItem = RecentItem(href: string, caption: string, place: string)

  const LIMIT: nat := 8

  function Others(items: seq<RecentItem>, href: string): seq<RecentItem> {
    if items == [] then []
    else (if items[0].href != href then [items[0]] else []) + Others(items[1..], href)
  }

  function Take(items: seq<RecentItem>, n: nat): seq<RecentItem> {
    if |items| <= n then items else items[..n]
  }

  function WithRecent(items: seq<RecentItem>, item: RecentItem): seq<RecentItem> {
    Take([item] + Others(items, item.href), LIMIT)
  }

  /** The list after a history of visits, oldest first. */
  function Visited(start: seq<RecentItem>, history: seq<RecentItem>): seq<RecentItem> {
    if history == [] then start
    else WithRecent(Visited(start, history[..|history| - 1]), history[|history| - 1])
  }

  class RecentStore {
    var items: seq<RecentItem>

    constructor ()
      ensures items == []
    {
      items := [];
    }

    /** `recordRecent`: a browser that will not store anything keeps what it had. */
    method Record(item: RecentItem, storable: bool)
      modifies this
      ensures items == if storable then WithRecent(old(items), item) else old(items)
    {
      if storable {
        items := WithRecent(items, item);
      }
    }

    /** Visits one by one, each stored or not as the browser has it. */
    method RecordAll(history: seq<RecentItem>, storable: seq<bool>)
      requires |storable| == |history|
      modifies this
      ensures items == Visited(old(items), Stored(history, storable))
    {
      for i := 0 to |history|
        invariant items == Visited(old(items), Stored(history[..i], storable[..i]))
      {
        StoredNext(history, storable, i);
        Record(history[i], storable[i]);
      }
      assert history[..|history|] == history && storable[..|history|] == storable;
    }
  }

  /** The visits that could be stored. */
  function Stored(history: seq<RecentItem>, storable: seq<bool>): seq<RecentItem>
    requires |storable| == |history|
  {
    if history == [] then []
    else
      var n := |history| - 1;
      Stored(history[..n], storable[..n]) + (if storable[n] then [history[n]] else [])
  }

  lemma StoredNext(history: seq<RecentItem>, storable: seq<bool>, i: nat)
    requires |storable| == |history| && i < |history|
    ensures var before := Stored(history[..i], storable[..i]);
      && Stored(history[..i + 1], storable[..i + 1]) == (if storable[i] then before + [history[i]] else before)
      && (before + [history[i]])[..|before|] == before
  {
    assert history[..i + 1][..i] == history[..i] && storable[..i + 1][..i] == storable[..i];
  }

  // ---------------------------------------------------------------- meaning

  function Hrefs(items: seq<RecentItem>): set<string> {
    set item | item in items :: item.href
  }

  /** Each address once, where it first appears. */
  function FirstOfEach(items: seq<RecentItem>): seq<RecentItem> {
    if items == [] then []
    else
      var before, last := items[..|items| - 1], items[|items| - 1];
      FirstOfEach(before) + (if last.href in Hrefs(before) then [] else [last])
  }

  function Reversed(items: seq<RecentItem>): seq<RecentItem> {
    if items == [] then [] else [items[|items| - 1]] + Reversed(items[..|items| - 1])
  }

  ghost predicate OnePerAddress(items: seq<RecentItem>) {
    forall i, j :: 0 <= i < j < |items| ==> items[i].href != items[j].href
  }

  lemma {:induction false} OthersAppend(a: seq<RecentItem>, b: seq<RecentItem>, href: string)
    ensures Others(a + b, href) == Others(a, href) + Others(b, href)
  {
    if a == [] {
      assert a + b == b;
    } else {
      assert (a + b)[1..] == a[1..] + b;
      OthersAppend(a[1..], b, href);
    }
  }

  lemma HrefsSnoc(items: seq<RecentItem>, last: RecentItem)
    ensures Hrefs(items + [last]) == Hrefs(items) + {last.href}
  {
    assert (items + [last])[|items|] == last;
    assert forall i :: 0 <= i < |items| ==> (items + [last])[i] == items[i];
  }

  lemma OneMoreAddress(items: seq<RecentItem>, last: RecentItem)
    requires OnePerAddress(items) && last.href !in Hrefs(items)
    ensures OnePerAddress(items + [last])
  {
    assert forall i :: 0 <= i < |items| ==> items[i].href in Hrefs(items);
  }

  lemma {:induction false} FirstOfEachIsOnePerAddress(items: seq<RecentItem>)
    ensures OnePerAddress(FirstOfEach(items)) && Hrefs(FirstOfEach(items)) == Hrefs(items)
  {
    if items != [] {
      var before, last := items[..|items| - 1], items[|items| - 1];
      FirstOfEachIsOnePerAddress(before);
      assert items == before + [last];
      HrefsSnoc(before, last);
      if last.href !in Hrefs(before) {
        HrefsSnoc(FirstOfEach(before), last);
        OneMoreAddress(FirstOfEach(before), last);
      } else {
        assert FirstOfEach(before) + [] == FirstOfEach(before);
      }
    }
  }

  lemma FirstOfEachSnoc(items: seq<RecentItem>, last: RecentItem)
    ensures FirstOfEach(items + [last]) == FirstOfEach(items) + (if last.href in Hrefs(items) then [] else [last])
  {
  }

  lemma OthersOfOne(item: RecentItem, href: string)
    ensures Others([item], href) == if item.href != href then [item] else []
  {
  }

  /** A visit in front replaces any later mention of its address. */
  lemma {:induction false} FirstOfEachCons(x: RecentItem, items: seq<RecentItem>)
    ensures FirstOfEach([x] + items) == [x] + Others(FirstOfEach(items), x.href)
  {
    if items == [] {
      FirstOfEachSnoc([], x);
      assert [x] + items == [] + [x];
    } else {
      var before, last := items[..|items| - 1], items[|items| - 1];
      FirstOfEachCons(x, before);
      ConsStep(x, before, last);
      assert items == before + [last];
    }
  }

  lemma ConsStep(x: RecentItem, before: seq<RecentItem>, last: RecentItem)
    requires FirstOfEach([x] + before) == [x] + Others(FirstOfEach(before), x.href)
    ensures FirstOfEach([x] + (before + [last])) == [x] + Others(FirstOfEach(before + [last]), x.href)
  {
    FrontThenBack(x, before, last);
    ConsAndSnoc(x, last, FirstOfEach(before), Hrefs(before));
    FirstOfEachSnoc(before, last);
  }

  lemma FrontThenBack(x: RecentItem, before: seq<RecentItem>, last: RecentItem)
    ensures FirstOfEach([x] + (before + [last]))
         == FirstOfEach([x] + before) + (if last.href in {x.href} + Hrefs(before) then [] else [last])
  {
    HrefsCons(x, before);
    assert [x] + (before + [last]) == ([x] + before) + [last];
    FirstOfEachSnoc([x] + before, last);
  }

  lemma HrefsCons(x: RecentItem, items: seq<RecentItem>)
    ensures Hrefs([x] + items) == {x.href} + Hrefs(items)
  {
  }

  lemma ConsAndSnoc(x: RecentItem, last: RecentItem, firsts: seq<RecentItem>, hrefs: set<string>)
    ensures var more := if last.href in hrefs then [] else [last];
      [x] + Others(firsts + more, x.href)
      == ([x] + Others(firsts, x.href)) + (if last.href in {x.href} + hrefs then [] else [last])
  {
    OthersAppend(firsts, [last], x.href);
    OthersOfOne(last, x.href);
    assert firsts + [] == firsts;
  }

  lemma {:induction false} OthersKeepsAll(items: seq<RecentItem>, href: string)
    requires forall i :: 0 <= i < |items| ==> items[i].href != href
    ensures Others(items, href) == items
  {
    if items != [] {
      OthersKeepsAll(items[1..], href);
    }
  }

  /** Dropping one address can lose at most one place, so one more item than is kept is enough. */
  lemma {:induction false} OneMoreIsEnough(items: seq<RecentItem>, href: string, n: nat)
    requires OnePerAddress(items)
    ensures Take(Others(Take(items, n + 1), href), n) == Take(Others(items, href), n)
  {
    if |items| > n + 1 {
      var rest, first := items[1..], items[..n + 1];
      assert first[1..] == Take(rest, n);
      if items[0].href == href {
        OthersKeepsAll(rest, href);
        OthersKeepsAll(Take(rest, n), href);
        assert Others(items, href) == rest && Others(first, href) == Take(rest, n);
      } else if n > 0 {
        OneMoreIsEnough(rest, href, n - 1);
        assert Others(items, href) == [items[0]] + Others(rest, href);
        assert Others(first, href) == [items[0]] + Others(Take(rest, n), href);
        TakeCons(items[0], Others(Take(rest, n), href), Others(rest, href), n - 1);
      }
    }
  }

  lemma TakeCons(x: RecentItem, a: seq<RecentItem>, b: seq<RecentItem>, n: nat)
    requires Take(a, n) == Take(b, n)
    ensures Take([x] + a, n + 1) == Take([x] + b, n + 1)
  {
  }

  /** Cutting the list at every visit loses nothing: it is always the latest LIMIT of all
      visits and whatever was there before, each address once, newest first. */
  lemma {:induction false} EarlyCutLosesNothing(start: seq<RecentItem>, history: seq<RecentItem>)
    requires OnePerAddress(start) && |start| <= LIMIT
    ensures Visited(start, history) == Take(FirstOfEach(Reversed(history) + start), LIMIT)
  {
    if history == [] {
      assert Reversed(history) + start == start;
      FirstOfEachOfOnes(start);
    } else {
      var before, last := history[..|history| - 1], history[|history| - 1];
      EarlyCutLosesNothing(start, before);
      var all := Reversed(before) + start;
      assert Reversed(history) + start == [last] + all;
      FirstOfEachCons(last, all);
      FirstOfEachIsOnePerAddress(all);
      OneMoreIsEnough(FirstOfEach(all), last.href, LIMIT - 1);
      TakeCons(last, Others(Take(FirstOfEach(all), LIMIT), last.href), Others(FirstOfEach(all), last.href), LIMIT - 1);
    }
  }

  lemma LastIsNew(before: seq<RecentItem>, last: RecentItem)
    requires OnePerAddress(before + [last])
    ensures OnePerAddress(before) && last.href !in Hrefs(before)
  {
    var items := before + [last];
    assert forall i :: 0 <= i < |before| ==> before[i] == items[i];
    assert items[|before|] == last;
  }

  lemma {:induction false} FirstOfEachOfOnes(items: seq<RecentItem>)
    requires OnePerAddress(items)
    ensures FirstOfEach(items) == items
  {
    if items != [] {
      var before, last := items[..|items| - 1], items[|items| - 1];
      assert items == before + [last];
      LastIsNew(before, last);
      FirstOfEachOfOnes(before);
    }
  }

  // ---------------------------------------------------- the list, visit by visit

  /** What stands at place `i` of a list of firsts: something with just `i` other addresses before it. */
  ghost predicate IsFirstVisit(items: seq<RecentItem>, q: int, x: RecentItem, i: nat) {
    0 <= q < |items| && items[q] == x && x.href !in Hrefs(items[..q]) && |Hrefs(items[..q])| == i
  }

  lemma {:induction false} FirstsAreCounted(items: seq<RecentItem>)
    ensures |FirstOfEach(items)| == |Hrefs(items)|
  {
    if items != [] {
      var before, last := items[..|items| - 1], items[|items| - 1];
      FirstsAreCounted(before);
      CountedNext(before, last);
      assert items == before + [last];
    }
  }

  lemma CountedNext(before: seq<RecentItem>, last: RecentItem)
    requires |FirstOfEach(before)| == |Hrefs(before)|
    ensures |FirstOfEach(before + [last])| == |Hrefs(before + [last])|
  {
    HrefsSnoc(before, last);
    FirstOfEachSnoc(before, last);
    OneMoreIsCounted(Hrefs(before), last.href);
  }

  lemma OneMoreIsCounted(hrefs: set<string>, href: string)
    ensures |hrefs + {href}| == |hrefs| + if href in hrefs then 0 else 1
  {
    if href in hrefs {
      assert hrefs + {href} == hrefs;
    }
  }

  lemma FirstVisitStill(before: seq<RecentItem>, last: RecentItem, q: int, x: RecentItem, i: nat)
    requires IsFirstVisit(before, q, x, i)
    ensures IsFirstVisit(before + [last], q, x, i)
  {
    assert (before + [last])[..q] == before[..q];
  }

  lemma {:induction false} FirstOfEachAt(items: seq<RecentItem>, i: nat) returns (q: int)
    requires i < |FirstOfEach(items)|
    ensures IsFirstVisit(items, q, FirstOfEach(items)[i], i)
  {
    var before, last := items[..|items| - 1], items[|items| - 1];
    FirstsAreCounted(before);
    assert items == before + [last];
    FirstOfEachSnoc(before, last);
    if i < |FirstOfEach(before)| {
      q := FirstOfEachAt(before, i);
      FirstVisitStill(before, last, q, FirstOfEach(before)[i], i);
    } else {
      q := |before|;
      assert items[..q] == before;
    }
  }

  lemma {:induction false} ReversedAt(items: seq<RecentItem>, q: nat)
    requires q < |items|
    ensures |Reversed(items)| == |items| && Reversed(items)[q] == items[|items| - 1 - q]
  {
    if q > 0 {
      ReversedAt(items[..|items| - 1], q - 1);
    } else if |items| > 1 {
      ReversedAt(items[..|items| - 1], 0);
    }
  }

  lemma {:induction false} ReversedTop(items: seq<RecentItem>, q: nat)
    requires q <= |items|
    ensures |Reversed(items)| == |items| && Hrefs(Reversed(items)[..q]) == Hrefs(items[|items| - q..])
  {
    if items != [] {
      ReversedAt(items, 0);
    }
    if q > 0 {
      ReversedTop(items, q - 1);
      ReversedAt(items, q - 1);
      var n := |items|;
      assert Reversed(items)[..q] == Reversed(items)[..q - 1] + [Reversed(items)[q - 1]];
      assert items[n - q..] == [items[n - q]] + items[n - q + 1..];
      HrefsSnoc(Reversed(items)[..q - 1], Reversed(items)[q - 1]);
      HrefsCons(items[n - q], items[n - q + 1..]);
    } else {
      assert Reversed(items)[..0] == [] && items[|items|..] == [];
    }
  }

  /** Some visit is `x`, the last to its address, and just `i` other addresses were visited since. */
  ghost predicate WasVisitedBefore(history: seq<RecentItem>, x: RecentItem, i: nat) {
    exists p :: IsLastVisit(history, p, x, i)
  }

  /** The visit at `p` is the last to its address, and just `i` other addresses were visited since. */
  ghost predicate IsLastVisit(history: seq<RecentItem>, p: int, x: RecentItem, i: nat) {
    0 <= p < |history| && history[p] == x && x.href !in Hrefs(history[p + 1..]) && |Hrefs(history[p + 1..])| == i
  }

  lemma ListIsCut(history: seq<RecentItem>)
    ensures Visited([], history) == Take(FirstOfEach(Reversed(history)), 8)
  {
    EarlyCutLosesNothing([], history);
    assert Reversed(history) + [] == Reversed(history);
  }

  lemma AllAreCounted(history: seq<RecentItem>)
    ensures |FirstOfEach(Reversed(history))| == |Hrefs(history)| && |Reversed(history)| == |history|
  {
    FirstsAreCounted(Reversed(history));
    ReversedTop(history, |history|);
    assert Reversed(history)[..|history|] == Reversed(history) && history[0..] == history;
  }

  lemma PlaceOfFirst(history: seq<RecentItem>, i: nat)
    requires i < |FirstOfEach(Reversed(history))| && |Reversed(history)| == |history|
    ensures WasVisitedBefore(history, FirstOfEach(Reversed(history))[i], i)
  {
    var q := FirstOfEachAt(Reversed(history), i);
    FirstIsLast(history, q, FirstOfEach(Reversed(history))[i], i);
  }

  ghost predicate ListsLastVisits(history: seq<RecentItem>, list: seq<RecentItem>) {
    && |list| == (if |Hrefs(history)| < 8 then |Hrefs(history)| else 8)
    && forall i :: 0 <= i < |list| ==> WasVisitedBefore(history, list[i], i)
  }

  lemma CutListsLastVisits(history: seq<RecentItem>)
    ensures ListsLastVisits(history, Take(FirstOfEach(Reversed(history)), 8))
  {
    var list := Take(FirstOfEach(Reversed(history)), 8);
    AllAreCounted(history);
    forall i | 0 <= i < |list| ensures WasVisitedBefore(history, list[i], i) {
      PlaceOfFirst(history, i);
      assert list[i] == FirstOfEach(Reversed(history))[i];
    }
  }

  /** The list kept has as many items as addresses were visited, but eight at most; and at each place
      it has the last visit to an address since which just as many others were visited. */
  lemma ListIsLastVisits(history: seq<RecentItem>)
    ensures ListsLastVisits(history, Visited([], history))
  {
    ListIsCut(history);
    CutListsLastVisits(history);
  }

  lemma FirstIsLast(history: seq<RecentItem>, q: int, x: RecentItem, i: nat)
    requires IsFirstVisit(Reversed(history), q, x, i) && |Reversed(history)| == |history|
    ensures IsLastVisit(history, |history| - 1 - q, x, i)
  {
    ReversedAt(history, q);
    ReversedTop(history, q);
  }
}
