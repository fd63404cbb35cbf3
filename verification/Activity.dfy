/**
 A project's activity (activity.py, `project_activity`): feeds read newest first,
 each only as far as the page needs, merged, sorted and sliced.
 */
module Activity {
  import opened Common
  import opened Sorting

  datatype Item = Item(at: int, id: string, sentence: string)

  const KINDS: seq<string> := ["changes", "runs", "incidents", "comments", "alerts", "contracts", "live"]
  const MAX_LIMIT: nat := 100
  const MAX_OFFSET: nat := 2000

  /** What each kind's queries would read without a limit: one feed, or two for runs and live. */
  type Project = string -> seq<seq<Item>>

  datatype Response = Response(items: seq<Item>, nextOffset: Option<nat>)

  datatype ActivityError = NoSuchKind(kinds: set<string>)

  // ------------------------------------------------------------------- order

  predicate TextBefore(a: string, b: string) {
    if b == "" then false
    else if a == "" then true
    else a[0] < b[0] || (a[0] == b[0] && TextBefore(a[1..], b[1..]))
  }

  /** Text comes before its continuations, and before what is greater where the two first differ. */
  lemma {:induction false} TextBeforeMeans(a: string, b: string)
    ensures TextBefore(a, b) <==>
      a < b || exists k :: 0 <= k < |a| && k < |b| && a[..k] == b[..k] && a[k] < b[k]
  {
    if a != "" && b != "" && a[0] == b[0] {
      TextBeforeMeans(a[1..], b[1..]);
      SameFirst(a, b);
    } else if a != "" && b != "" {
      assert a[..0] == b[..0];
      assert forall k :: 0 < k < |a| && k < |b| ==> a[..k][0] != b[..k][0];
    }
  }

  lemma SameFirst(a: string, b: string)
    requires a != "" && b != "" && a[0] == b[0]
    ensures a < b <==> a[1..] < b[1..]
    ensures (exists k :: 0 <= k < |a| && k < |b| && a[..k] == b[..k] && a[k] < b[k])
       <==> exists k :: 0 <= k < |a[1..]| && k < |b[1..]| && a[1..][..k] == b[1..][..k] && a[1..][k] < b[1..][k]
  {
    assert a == [a[0]] + a[1..] && b == [b[0]] + b[1..];
    if k :| 0 <= k < |a| && k < |b| && a[..k] == b[..k] && a[k] < b[k] {
      assert k > 0 && a[1..][..k - 1] == a[..k][1..] && b[1..][..k - 1] == b[..k][1..];
    }
    if k :| 0 <= k < |a[1..]| && k < |b[1..]| && a[1..][..k] == b[1..][..k] && a[1..][k] < b[1..][k] {
      assert a[..k + 1] == [a[0]] + a[1..][..k] && b[..k + 1] == [b[0]] + b[1..][..k];
    }
  }

  /** Later, or at the same moment with the greater id. */
  predicate Newer(a: Item, b: Item) {
    a.at > b.at || (a.at == b.at && TextBefore(b.id, a.id))
  }

  predicate NotOlder(a: Item, b: Item) {
    !Newer(b, a)
  }

  lemma {:induction false} TextOrder(a: string, b: string)
    ensures a != b ==> TextBefore(a, b) || TextBefore(b, a)
    ensures !(TextBefore(a, b) && TextBefore(b, a))
  {
    if a != "" && b != "" && a[0] == b[0] {
      TextOrder(a[1..], b[1..]);
      assert a == [a[0]] + a[1..] && b == [b[0]] + b[1..];
    }
  }

  lemma {:induction false} TextTransitive(a: string, b: string, c: string)
    requires TextBefore(a, b) && TextBefore(b, c)
    ensures TextBefore(a, c)
  {
    if a != "" && a[0] == b[0] == c[0] {
      TextTransitive(a[1..], b[1..], c[1..]);
    }
  }

  lemma NewerIsAnOrder(a: Item, b: Item, c: Item)
    ensures !(Newer(a, b) && Newer(b, a))
    ensures Newer(a, b) && Newer(b, c) ==> Newer(a, c)
    ensures a.id != b.id ==> Newer(a, b) || Newer(b, a)
    ensures NotOlder(a, b) && NotOlder(b, c) ==> NotOlder(a, c)
  {
    TextOrder(a.id, b.id);
    TextOrder(b.id, c.id);
    TextOrder(a.id, c.id);
    if TextBefore(c.id, b.id) && TextBefore(b.id, a.id) {
      TextTransitive(c.id, b.id, a.id);
    }
    if TextBefore(a.id, b.id) && TextBefore(b.id, c.id) {
      TextTransitive(a.id, b.id, c.id);
    }
    if TextBefore(a.id, c.id) && TextBefore(c.id, b.id) {
      TextTransitive(a.id, c.id, b.id);
    }
    if TextBefore(b.id, a.id) && TextBefore(a.id, c.id) {
      TextTransitive(b.id, a.id, c.id);
    }
  }

  lemma NotOlderIsTotal()
    ensures TotalPreorder(NotOlder)
  {
    forall a: Item, b: Item, c: Item
      ensures NotOlder(a, b) || NotOlder(b, a)
      ensures NotOlder(a, b) && NotOlder(b, c) ==> NotOlder(a, c)
    {
      NewerIsAnOrder(a, b, c);
    }
  }

  // -------------------------------------------------------------------- code

  /** `.limit(n)`. */
  function Cut(feed: seq<Item>, n: nat): seq<Item> {
    if n < |feed| then feed[..n] else feed
  }

  /** No more is read of a feed than is wanted, and no less while there is more. */
  lemma CutIsExact(feed: seq<Item>, n: nat)
    ensures Cut(feed, n) <= feed && |Cut(feed, n)| <= n && (|Cut(feed, n)| < n ==> Cut(feed, n) == feed)
  {
  }

  function CutAll(feeds: seq<seq<Item>>, n: nat): seq<seq<Item>> {
    seq(|feeds|, i requires 0 <= i < |feeds| => Cut(feeds[i], n))
  }

  /** The feeds of the chosen kinds, in the order of KINDS. */
  function FeedsOf(project: Project, chosen: seq<string>, kinds: seq<string>): seq<seq<Item>> {
    if kinds == [] then []
    else
      FeedsOf(project, chosen, kinds[..|kinds| - 1]) +
      (if kinds[|kinds| - 1] in chosen then project(kinds[|kinds| - 1]) else [])
  }

  function Chosen(kinds: seq<string>): seq<string> {
    if kinds == [] then KINDS else kinds
  }

  function Unknown(kinds: seq<string>): set<string> {
    set k | k in Chosen(kinds) && k !in KINDS
  }

  function Feeds(project: Project, kinds: seq<string>): seq<seq<Item>> {
    FeedsOf(project, Chosen(kinds), KINDS)
  }

  function Clamp(n: int, low: nat, high: nat): nat
    requires low <= high
  {
    if n < low then low else if n > high then high else n
  }

  function Slice(items: seq<Item>, offset: nat, limit: nat): seq<Item> {
    if |items| <= offset then []
    else if |items| <= offset + limit then items[offset..]
    else items[offset..offset + limit]
  }

  method ProjectActivity(project: Project, kinds: seq<string>, offset: int, limit: int)
    returns (r: Result<Response, ActivityError>)
    requires WellKept(Feeds(project, kinds))
    ensures r == Page(project, kinds, offset, limit)
    ensures r.Ok? ==> NewestFirst(r.value.items)
  {
    var chosen := Chosen(kinds);
    if Unknown(kinds) != {} {
      return Err(NoSuchKind(Unknown(kinds)));
    }
    var lim := Clamp(limit, 1, MAX_LIMIT);
    var off := Clamp(offset, 0, MAX_OFFSET);
    var wanted := off + lim + 1;
    var items := ReadKinds(project, chosen, wanted);
    items := Sort(NotOlder, items);
    var more := |items| > off + lim && off + lim < MAX_OFFSET;
    r := Ok(Response(Slice(items, off, lim), if more then Some(off + lim) else None));
    PageAsRead(project, kinds, offset, limit, items);
    PageIsNewestFirst(project, kinds, offset, limit);
  }

  /** The page of what was read is the page. */
  lemma PageAsRead(project: Project, kinds: seq<string>, offset: int, limit: int, items: seq<Item>)
    requires WellKept(Feeds(project, kinds)) && Unknown(kinds) == {}
    requires var off, lim := Clamp(offset, 0, MAX_OFFSET), Clamp(limit, 1, MAX_LIMIT);
      items == Sort(NotOlder, Flatten(CutAll(Feeds(project, kinds), off + lim + 1)))
    ensures var off, lim := Clamp(offset, 0, MAX_OFFSET), Clamp(limit, 1, MAX_LIMIT);
      var more := |items| > off + lim && off + lim < MAX_OFFSET;
      var page := Response(Slice(items, off, lim), if more then Some(off + lim) else None);
      Page(project, kinds, offset, limit) == Ok(page)
  {
    PageFromCuts(Feeds(project, kinds), Clamp(offset, 0, MAX_OFFSET), Clamp(limit, 1, MAX_LIMIT));
  }

  method ReadKinds(project: Project, chosen: seq<string>, wanted: nat) returns (items: seq<Item>)
    ensures items == Flatten(CutAll(FeedsOf(project, chosen, KINDS), wanted))
  {
    items := [];
    for k := 0 to |KINDS|
      invariant items == Flatten(CutAll(FeedsOf(project, chosen, KINDS[..k]), wanted))
    {
      var before := FeedsOf(project, chosen, KINDS[..k]);
      FeedsOfNext(project, chosen, k);
      if KINDS[k] in chosen {
        var read := ReadKind(project(KINDS[k]), wanted);
        CutAllAppend(before, project(KINDS[k]), wanted);
        FlattenAppend(CutAll(before, wanted), CutAll(project(KINDS[k]), wanted));
        items := items + read;
      }
    }
    assert KINDS[..|KINDS|] == KINDS;
  }

  lemma FeedsOfNext(project: Project, chosen: seq<string>, k: nat)
    requires k < |KINDS|
    ensures FeedsOf(project, chosen, KINDS[..k + 1])
      == if KINDS[k] in chosen then FeedsOf(project, chosen, KINDS[..k]) + project(KINDS[k])
          else FeedsOf(project, chosen, KINDS[..k])
  {
    assert KINDS[..k + 1][..k] == KINDS[..k] && KINDS[..k + 1][k] == KINDS[k];
    assert FeedsOf(project, chosen, KINDS[..k]) + [] == FeedsOf(project, chosen, KINDS[..k]);
  }

  /** One source: its feeds one after the other, each cut by its query's limit. */
  method ReadKind(feeds: seq<seq<Item>>, wanted: nat) returns (read: seq<Item>)
    ensures read == Flatten(CutAll(feeds, wanted))
  {
    read := [];
    for f := 0 to |feeds|
      invariant read == Flatten(CutAll(feeds[..f], wanted))
    {
      assert feeds[..f + 1] == feeds[..f] + [feeds[f]];
      CutAllAppend(feeds[..f], [feeds[f]], wanted);
      assert CutAll([feeds[f]], wanted) == [Cut(feeds[f], wanted)];
      FlattenAppend(CutAll(feeds[..f], wanted), [Cut(feeds[f], wanted)]);
      assert [Cut(feeds[f], wanted)][1..] == [];
      read := read + Cut(feeds[f], wanted);
    }
    assert feeds[..|feeds|] == feeds;
  }

  lemma CutAllAppend(a: seq<seq<Item>>, b: seq<seq<Item>>, n: nat)
    ensures CutAll(a + b, n) == CutAll(a, n) + CutAll(b, n)
  {
  }

  // ------------------------------------------------------- what a page means

  /** The whole stream of the chosen kinds, newest first: nothing cut. */
  function Stream(project: Project, kinds: seq<string>): seq<Item> {
    Sort(NotOlder, Flatten(Feeds(project, kinds)))
  }

  /** A page as its reader understands it: a slice of the whole stream, and whether more follows. */
  function Page(project: Project, kinds: seq<string>, offset: int, limit: int): Result<Response, ActivityError> {
    if Unknown(kinds) != {} then Err(NoSuchKind(Unknown(kinds)))
    else
      var off, lim := Clamp(offset, 0, MAX_OFFSET), Clamp(limit, 1, MAX_LIMIT);
      var all := Stream(project, kinds);
      Ok(Response(Slice(all, off, lim), if |all| > off + lim && off + lim < MAX_OFFSET then Some(off + lim) else None))
  }

  /** Later items before earlier ones, and at one moment the greater id first. */
  ghost predicate NewestFirst(items: seq<Item>) {
    forall i, j :: 0 <= i < j < |items| ==>
      items[i].at > items[j].at || (items[i].at == items[j].at && TextBefore(items[j].id, items[i].id))
  }

  ghost predicate Descending(s: seq<Item>) {
    forall i, j :: 0 <= i < j < |s| ==> Newer(s[i], s[j])
  }

  /** What the queries and the ids give: each feed newest first, and an id names one item. */
  ghost predicate WellKept(feeds: seq<seq<Item>>) {
    && (forall f :: 0 <= f < |feeds| ==> Descending(feeds[f]))
    && (forall f, g, i, j ::
          (0 <= f < |feeds| && 0 <= g < |feeds| && 0 <= i < |feeds[f]| && 0 <= j < |feeds[g]|
           && feeds[f][i].id == feeds[g][j].id) ==> f == g && i == j)
  }

  ghost predicate Distinct(s: seq<Item>) {
    forall i, j :: 0 <= i < j < |s| ==> s[i].id != s[j].id
  }

  lemma {:induction false} FlattenIsDistinct(feeds: seq<seq<Item>>)
    requires WellKept(feeds)
    ensures Distinct(Flatten(feeds))
  {
    if feeds != [] {
      var rest := feeds[1..];
      assert forall f :: 0 <= f < |rest| ==> rest[f] == feeds[f + 1];
      FlattenIsDistinct(rest);
      forall i, j | 0 <= i < |feeds[0]| && 0 <= j < |Flatten(rest)| ensures feeds[0][i].id != Flatten(rest)[j].id {
        InFlatten(rest, Flatten(rest)[j]);
        var g :| 0 <= g < |rest| && Flatten(rest)[j] in rest[g];
        var k :| 0 <= k < |rest[g]| && rest[g][k] == Flatten(rest)[j];
        assert rest[g] == feeds[g + 1];
      }
    }
  }

  /** Sorting distinct items puts each strictly before the next. */
  lemma SortedIsDescending(s: seq<Item>)
    requires Distinct(s)
    ensures Descending(Sort(NotOlder, s))
    ensures forall x :: x in Sort(NotOlder, s) <==> x in s
  {
    NotOlderIsTotal();
    SortSorts(NotOlder, s);
    var t := Sort(NotOlder, s);
    forall x ensures x in t <==> x in s {
      assert x in t <==> x in multiset(t);
      assert x in s <==> x in multiset(s);
    }
    forall i, j | 0 <= i < j < |t| ensures Newer(t[i], t[j]) {
      DistinctPermutation(s, t, i, j);
      NewerIsAnOrder(t[i], t[j], t[j]);
    }
  }

  lemma DistinctPermutation(s: seq<Item>, t: seq<Item>, i: nat, j: nat)
    requires Distinct(s) && multiset(t) == multiset(s) && i < j < |t|
    ensures t[i].id != t[j].id
  {
    assert t[i] in multiset(s) && t[j] in multiset(s);
    var k :| 0 <= k < |s| && s[k] == t[i];
    var l :| 0 <= l < |s| && s[l] == t[j];
    if t[i].id == t[j].id {
      assert k == l && t[i] == t[j];
      TwiceInSeq(t, i, j);
      OnceInSeq(s, k);
    }
  }

  lemma TwiceInSeq(t: seq<Item>, i: nat, j: nat)
    requires i < j < |t| && t[i] == t[j]
    ensures multiset(t)[t[i]] >= 2
  {
    assert t == t[..i] + [t[i]] + t[i + 1..j] + [t[j]] + t[j + 1..];
  }

  lemma OnceInSeq(s: seq<Item>, k: nat)
    requires Distinct(s) && k < |s|
    ensures multiset(s)[s[k]] == 1
  {
    assert s == s[..k] + [s[k]] + s[k + 1..];
    assert s[k] !in s[..k] && s[k] !in s[k + 1..];
  }

  /** In a stream that has everything a feed has, nothing stands earlier than in its feed. */
  lemma {:induction false} NeverEarlier(feed: seq<Item>, all: seq<Item>, p: nat, i: nat)
    requires Descending(feed) && Descending(all) && (forall x :: x in feed ==> x in all)
    requires p < |feed| && i < |all| && all[i] == feed[p]
    ensures p <= i
  {
    if p > 0 {
      assert feed[p - 1] in feed;
      var q :| 0 <= q < |all| && all[q] == feed[p - 1];
      assert Newer(feed[p - 1], feed[p]);
      NewerIsAnOrder(all[i], all[q], all[i]);
      assert q < i;
      NeverEarlier(feed, all, p - 1, q);
    }
  }

  /** Two newest-first lists that share their elements at the top share the top. */
  lemma {:induction false} SameTop(all: seq<Item>, some: seq<Item>, n: nat)
    requires Descending(all) && Descending(some) && (forall x :: x in some ==> x in all)
    requires n <= |all| && forall i :: 0 <= i < n ==> all[i] in some
    ensures n <= |some| && some[..n] == all[..n]
  {
    if n > 0 {
      SameTop(all, some, n - 1);
      var k :| 0 <= k < |some| && some[k] == all[n - 1];
      NeverEarlier(some, all, k, n - 1);
      if k < n - 1 {
        assert some[..n - 1][k] == all[..n - 1][k];
        assert Newer(all[k], all[n - 1]);
        NewerIsAnOrder(all[k], all[n - 1], all[k]);
        assert false;
      }
    }
  }

  lemma CutsAreWellKept(feeds: seq<seq<Item>>, n: nat)
    requires WellKept(feeds)
    ensures WellKept(CutAll(feeds, n))
  {
  }

  /** Reading one item more than the page from each feed is enough. */
  lemma PageFromCuts(feeds: seq<seq<Item>>, offset: nat, limit: nat)
    requires WellKept(feeds)
    ensures var all := Sort(NotOlder, Flatten(feeds));
      var read := Sort(NotOlder, Flatten(CutAll(feeds, offset + limit + 1)));
      Slice(read, offset, limit) == Slice(all, offset, limit) && (|read| > offset + limit <==> |all| > offset + limit)
  {
    var n := offset + limit + 1;
    var all, read := Sort(NotOlder, Flatten(feeds)), Sort(NotOlder, Flatten(CutAll(feeds, n)));
    CutsAreWellKept(feeds, n);
    StreamIsDescending(feeds);
    StreamIsDescending(CutAll(feeds, n));
    forall x | x in read ensures x in all {
      CutIsPart(feeds, n, x);
    }
    forall i | 0 <= i < |all| && i < n ensures all[i] in read {
      TopIsRead(feeds, all, n, i);
    }
    SamePage(all, read, offset, limit);
  }

  lemma SamePage(all: seq<Item>, read: seq<Item>, offset: nat, limit: nat)
    requires Descending(all) && Descending(read) && forall x :: x in read ==> x in all
    requires forall i :: 0 <= i < |all| && i <= offset + limit ==> all[i] in read
    ensures Slice(read, offset, limit) == Slice(all, offset, limit)
    ensures |read| > offset + limit <==> |all| > offset + limit
  {
    var n := offset + limit + 1;
    var top := if |all| < n then |all| else n;
    SameTop(all, read, top);
    if |all| < n {
      NoLonger(all, read);
    }
    SliceOfTop(all, read, offset, limit);
  }

  lemma StreamIsDescending(feeds: seq<seq<Item>>)
    requires WellKept(feeds)
    ensures Descending(Sort(NotOlder, Flatten(feeds)))
    ensures forall x :: x in Sort(NotOlder, Flatten(feeds)) <==> x in Flatten(feeds)
  {
    FlattenIsDistinct(feeds);
    SortedIsDescending(Flatten(feeds));
  }

  lemma CutIsPart(feeds: seq<seq<Item>>, n: nat, x: Item)
    requires x in Flatten(CutAll(feeds, n))
    ensures x in Flatten(feeds)
  {
    InFlatten(CutAll(feeds, n), x);
    InFlatten(feeds, x);
    var f :| 0 <= f < |feeds| && x in CutAll(feeds, n)[f];
    assert x in feeds[f];
  }

  lemma FeedIsPart(feeds: seq<seq<Item>>, f: nat)
    requires f < |feeds|
    ensures forall x :: x in feeds[f] ==> x in Flatten(feeds)
  {
    forall x | x in feeds[f] ensures x in Flatten(feeds) {
      InFlatten(feeds, x);
    }
  }

  lemma TopIsRead(feeds: seq<seq<Item>>, all: seq<Item>, n: nat, i: nat)
    requires WellKept(feeds) && Descending(all) && (forall x :: x in all <==> x in Flatten(feeds))
    requires i < |all| && i < n
    ensures all[i] in Flatten(CutAll(feeds, n))
  {
    InFlatten(feeds, all[i]);
    var f :| 0 <= f < |feeds| && all[i] in feeds[f];
    var p :| 0 <= p < |feeds[f]| && feeds[f][p] == all[i];
    FeedIsPart(feeds, f);
    NeverEarlier(feeds[f], all, p, i);
    assert CutAll(feeds, n)[f][p] == all[i];
    InFlatten(CutAll(feeds, n), all[i]);
  }

  lemma NoLonger(all: seq<Item>, some: seq<Item>)
    requires Descending(all) && Descending(some) && (forall x :: x in some ==> x in all)
    requires |all| <= |some| && some[..|all|] == all
    ensures some == all
  {
    assert forall i :: 0 <= i < |all| ==> some[i] == some[..|all|][i] == all[i];
    forall j | 0 <= j < |some| ensures some[j] in all {
      assert some[j] in some;
    }
    if |some| > |all| {
      var x := some[|all|];
      NewerIsAnOrder(x, x, x);
      assert false;
    }
    assert some == some[..|all|];
  }

  lemma SliceOfTop(all: seq<Item>, some: seq<Item>, offset: nat, limit: nat)
    requires var top := if |all| < offset + limit + 1 then |all| else offset + limit + 1;
      top <= |some| && some[..top] == all[..top] && (|all| < offset + limit + 1 ==> some == all)
    ensures Slice(some, offset, limit) == Slice(all, offset, limit)
  {
    if |all| > offset + limit {
      var top := offset + limit + 1;
      assert all[offset..offset + limit] == all[..top][offset..offset + limit];
      assert some[offset..offset + limit] == some[..top][offset..offset + limit];
    }
  }

  // --------------------------------------------- a page, on offsets and moments

  /** The stream and every page of it are newest first, by moment and then by id. */
  lemma PageIsNewestFirst(project: Project, kinds: seq<string>, offset: int, limit: int)
    requires WellKept(Feeds(project, kinds))
    ensures NewestFirst(Stream(project, kinds))
    ensures Page(project, kinds, offset, limit).Ok? ==> NewestFirst(Page(project, kinds, offset, limit).value.items)
  {
    StreamIsDescending(Feeds(project, kinds));
    var all := Stream(project, kinds);
    forall i, j | 0 <= i < j < |all|
      ensures all[i].at > all[j].at || (all[i].at == all[j].at && TextBefore(all[j].id, all[i].id))
    {
      assert Newer(all[i], all[j]);
    }
  }

  predicate IsKind(kind: string) {
    kind in {"changes", "runs", "incidents", "comments", "alerts", "contracts", "live"}
  }

  lemma KindsAre(kind: string)
    ensures kind in KINDS <==> IsKind(kind)
  {
  }

  /** A page is refused exactly for naming kinds that do not exist, and for all that do not. */
  lemma RefusedForKinds(project: Project, kinds: seq<string>, offset: int, limit: int)
    ensures var page := Page(project, kinds, offset, limit);
      && (page.Err? <==> exists k :: k in kinds && !IsKind(k))
      && (page.Err? ==> forall k :: k in page.error.kinds <==> k in kinds && !IsKind(k))
  {
    forall k ensures k in Unknown(kinds) <==> k in kinds && !IsKind(k) {
      KindsAre(k);
    }
  }

  /** What a page is, in numbers: from the offset asked for, but at least 0 and at most 2000, as many
      items as asked for, but at least 1 and at most 100, as far as the stream goes; a next page is
      offered exactly when the stream goes on and it would begin before 2000. */
  lemma PageIsExact(project: Project, kinds: seq<string>, offset: int, limit: int)
    requires Page(project, kinds, offset, limit).Ok?
    ensures var off := if offset < 0 then 0 else if offset < 2000 then offset else 2000;
      var lim := if limit < 1 then 1 else if limit < 100 then limit else 100;
      IsPage(Page(project, kinds, offset, limit).value, Stream(project, kinds), off, lim)
  {
    SliceIsPage(Stream(project, kinds), Clamp(offset, 0, MAX_OFFSET), Clamp(limit, 1, MAX_LIMIT));
  }

  ghost predicate IsPage(page: Response, all: seq<Item>, offset: nat, limit: nat) {
    && |page.items| == (if |all| <= offset then 0 else if |all| - offset < limit then |all| - offset else limit)
    && (forall i :: 0 <= i < |page.items| ==> page.items[i] == all[offset + i])
    && page.nextOffset == if offset + limit < |all| && offset + limit < 2000 then Some(offset + limit) else None
  }

  lemma SliceIsPage(all: seq<Item>, offset: nat, limit: nat)
    ensures IsPage(
      Response(Slice(all, offset, limit),
               if |all| > offset + limit && offset + limit < MAX_OFFSET then Some(offset + limit) else None),
      all, offset, limit)
  {
  }

  lemma {:induction false} FeedsOfHave(project: Project, chosen: seq<string>, kinds: seq<string>, feed: seq<Item>)
    ensures feed in FeedsOf(project, chosen, kinds) <==>
      exists kind :: kind in kinds && kind in chosen && feed in project(kind)
  {
    if kinds != [] {
      var rest, last := kinds[..|kinds| - 1], kinds[|kinds| - 1];
      FeedsOfHave(project, chosen, rest, feed);
      assert kinds == rest + [last];
    }
  }

  lemma FeedsHave(project: Project, kinds: seq<string>, feed: seq<Item>)
    ensures feed in Feeds(project, kinds) <==>
      exists kind :: IsKind(kind) && (kinds == [] || kind in kinds) && feed in project(kind)
  {
    FeedsOfHave(project, Chosen(kinds), KINDS, feed);
    forall kind ensures kind in KINDS && kind in Chosen(kinds) <==> IsKind(kind) && (kinds == [] || kind in kinds) {
      KindsAre(kind);
    }
  }

  /** The stream has exactly what some feed of a kind asked for has; of every kind, if none is named. */
  lemma StreamHasAll(project: Project, kinds: seq<string>, x: Item)
    ensures x in Stream(project, kinds) <==>
      exists kind, feed :: IsKind(kind) && (kinds == [] || kind in kinds) && feed in project(kind) && x in feed
  {
    var feeds := Feeds(project, kinds);
    StreamHasFeeds(project, kinds, x);
    if feed :| feed in feeds && x in feed {
      FeedsHave(project, kinds, feed);
    }
    if kind, feed :| IsKind(kind) && (kinds == [] || kind in kinds) && feed in project(kind) && x in feed {
      FeedsHave(project, kinds, feed);
    }
  }

  lemma StreamHasFeeds(project: Project, kinds: seq<string>, x: Item)
    ensures x in Stream(project, kinds) <==> exists feed :: feed in Feeds(project, kinds) && x in feed
  {
    var feeds := Feeds(project, kinds);
    NotOlderIsTotal();
    SortSorts(NotOlder, Flatten(feeds));
    assert x in Stream(project, kinds) <==> x in multiset(Stream(project, kinds));
    assert x in Flatten(feeds) <==> x in multiset(Flatten(feeds));
    InFlatten(feeds, x);
    if i :| 0 <= i < |feeds| && x in feeds[i] {
      assert feeds[i] in feeds;
    }
    if feed :| feed in feeds && x in feed {
      var i :| 0 <= i < |feeds| && feeds[i] == feed;
    }
  }

  /** The first page begins with the latest: nothing of a kind asked for is later. */
  lemma NothingIsLater(project: Project, kinds: seq<string>, limit: int, kind: string, feed: seq<Item>, x: Item)
    requires WellKept(Feeds(project, kinds)) && Page(project, kinds, 0, limit).Ok?
    requires IsKind(kind) && (kinds == [] || kind in kinds) && feed in project(kind) && x in feed
    ensures var items := Page(project, kinds, 0, limit).value.items;
      items != [] && x.at <= items[0].at
  {
    PageIsNewestFirst(project, kinds, 0, limit);
    PageIsExact(project, kinds, 0, limit);
    StreamHasAll(project, kinds, x);
    var i :| 0 <= i < |Stream(project, kinds)| && Stream(project, kinds)[i] == x;
  }
}
