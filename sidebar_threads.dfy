/** The sidebar's thread list (src/components/layouts/app-sidebar-threads.tsx): the
    merge of a refetched list with the threads already held, the 40-entry cut, and
    the grouping of the shown threads into today, yesterday, last week and older. */
module SidebarThreads {
  import opened Wrappers
  import opened Seqs
  import opened Sorting
  import opened Grouping

  /** A chat thread, with the fields the sidebar reads. Dates are day numbers: the
      local midnight of the instant, counted in days. */
  datatype Thread = Thread(id: string, title: string, createdAt: int, lastMessageAt: Option<int>)

  function IdOf(t: Thread): string { t.id }

  // ---------------------------------------------------------------- merge

  /** `groupBy(list, "id")[id]?.[0]`: the first thread with the id. */
  function FirstWithId(ts: seq<Thread>, id: string): (r: Option<Thread>)
    ensures r.None? <==> forall i :: 0 <= i < |ts| ==> ts[i].id != id
    ensures r.Some? ==> exists i :: 0 <= i < |ts| && ts[i] == r.value && r.value.id == id &&
                          forall j :: 0 <= j < i ==> ts[j].id != id
    decreases |ts|
  {
    if ts == [] then None
    else if ts[0].id == id then Some(ts[0])
    else
      var r := FirstWithId(ts[1..], id);
      assert forall i :: 0 <= i < |ts[1..]| ==> ts[1..][i] == ts[i + 1];
      r
  }

  /** The held threads whose titles are being generated, in the order of `ids`; ids
      that the held list lacks are dropped. */
  function Generating(held: seq<Thread>, ids: seq<string>): (r: seq<Thread>)
    ensures |r| <= |ids|
    ensures forall i :: 0 <= i < |r| ==> r[i].id in ids && FirstWithId(held, r[i].id) == Some(r[i])
    decreases |ids|
  {
    if ids == [] then []
    else
      var rest := Generating(held, ids[1..]);
      match FirstWithId(held, ids[0])
      case None => rest
      case Some(t) => [t] + rest
  }

  /** A refetched thread without a title takes the title of the held thread with its
      id, when that one has a title. */
  function BackFill(held: seq<Thread>, v: Thread): (r: Thread)
    ensures r == v.(title := r.title)
    ensures v.title != "" ==> r.title == v.title
    ensures v.title == "" ==> r.title == (match FirstWithId(held, v.id) case Some(t) => t.title case None => "")
  {
    match FirstWithId(held, v.id)
    case None => v
    case Some(target) => if target.title != "" && v.title == "" then v.(title := target.title) else v
  }

  /** The thread list `onSuccess` stores: the generating threads, then the fetched
      ones, the first of each id kept, titles filled in from the held list. */
  function Merged(held: seq<Thread>, generatingIds: seq<string>, data: seq<Thread>): (r: seq<Thread>)
    ensures |r| == |Dedup(Generating(held, generatingIds) + data, IdOf)|
    ensures forall i :: 0 <= i < |r| ==> r[i] == BackFill(held, Dedup(Generating(held, generatingIds) + data, IdOf)[i])
  {
    var list := Dedup(Generating(held, generatingIds) + data, IdOf);
    seq(|list|, i requires 0 <= i < |list| => BackFill(held, list[i]))
  }

  /** The merged list carries the distinct ids of the generating threads followed
      by the fetched ones, in first-appearance order. */
  lemma MergedKeys(held: seq<Thread>, generatingIds: seq<string>, data: seq<Thread>)
    ensures Keys(Merged(held, generatingIds, data), IdOf) == DistinctKeys(Generating(held, generatingIds) + data, IdOf)
  {
    var all := Generating(held, generatingIds) + data;
    assert Keys(Merged(held, generatingIds, data), IdOf) == Keys(Dedup(all, IdOf), IdOf);
    DedupKeys(all, IdOf);
  }

  /** The merged list holds each id once. */
  lemma MergedIdsDistinct(held: seq<Thread>, generatingIds: seq<string>, data: seq<Thread>)
    ensures var r := Merged(held, generatingIds, data);
            forall i, j :: 0 <= i < j < |r| ==> r[i].id != r[j].id
  {
    var r := Merged(held, generatingIds, data);
    MergedKeys(held, generatingIds, data);
    DistinctKeysSpec(Generating(held, generatingIds) + data, IdOf);
    forall i, j | 0 <= i < j < |r| ensures r[i].id != r[j].id {
      assert Keys(r, IdOf)[i] == r[i].id && Keys(r, IdOf)[j] == r[j].id;
    }
  }

  /** Every fetched thread's id is in the merged list. */
  lemma MergedHasFetched(held: seq<Thread>, generatingIds: seq<string>, data: seq<Thread>)
    ensures forall i :: 0 <= i < |data| ==> data[i].id in Keys(Merged(held, generatingIds, data), IdOf)
  {
    var gen := Generating(held, generatingIds);
    var all := gen + data;
    MergedKeys(held, generatingIds, data);
    forall i | 0 <= i < |data| ensures data[i].id in DistinctKeys(all, IdOf) {
      KeyListed(all, IdOf, |gen| + i);
      assert all[|gen| + i] == data[i];
    }
  }

  /** The generating threads' ids come first, in their own order. */
  lemma MergedGeneratingFirst(held: seq<Thread>, generatingIds: seq<string>, data: seq<Thread>)
    ensures var r, gen := Merged(held, generatingIds, data), Generating(held, generatingIds);
            && |DistinctKeys(gen, IdOf)| <= |r|
            && Keys(r, IdOf)[..|DistinctKeys(gen, IdOf)|] == DistinctKeys(gen, IdOf)
  {
    var gen := Generating(held, generatingIds);
    var d := Dedup(gen + data, IdOf);
    var n := |Dedup(gen, IdOf)|;
    MergedKeys(held, generatingIds, data);
    DedupKeys(gen + data, IdOf);
    DedupPrefix(gen, data, IdOf);
    DedupKeys(gen, IdOf);
    assert Keys(d, IdOf)[..n] == Keys(d[..n], IdOf);
  }

  /** Up to its title, each merged thread is the first thread with its id among the
      generating threads followed by the fetched ones. */
  lemma MergedKeepsFirst(held: seq<Thread>, generatingIds: seq<string>, data: seq<Thread>)
    ensures var r, all := Merged(held, generatingIds, data), Generating(held, generatingIds) + data;
            forall i :: 0 <= i < |r| ==>
              Bucket(all, IdOf, r[i].id) != [] && r[i] == Bucket(all, IdOf, r[i].id)[0].(title := r[i].title)
  {
    var all := Generating(held, generatingIds) + data;
    DedupFirst(all, IdOf);
  }

  // ---------------------------------------------------------------- display

  const MAX_THREADS_COUNT: nat := 40

  /** `hasExcessThreads`. */
  predicate HasExcess(ts: seq<Thread>) {
    |ts| >= MAX_THREADS_COUNT
  }

  /** `displayThreadList`: the first 40 threads unless expanded, when there are
      40 or more; otherwise all of them. */
  function Display(ts: seq<Thread>, expanded: bool): (r: seq<Thread>)
    ensures |r| <= |ts| && r == ts[..|r|]
    ensures !expanded && HasExcess(ts) ==> |r| == MAX_THREADS_COUNT
    ensures expanded || !HasExcess(ts) ==> r == ts
    ensures !expanded ==> |r| <= MAX_THREADS_COUNT
  {
    if !expanded && HasExcess(ts) then ts[..MAX_THREADS_COUNT] else ts
  }

  // ---------------------------------------------------------------- dates

  datatype Period = Today | Yesterday | LastWeek | Older

  /** The four groups in the order they are shown. */
  const PERIODS: seq<Period> := [Today, Yesterday, LastWeek, Older]

  function Rank(p: Period): (n: nat)
    ensures n < 4 && PERIODS[n] == p
  {
    match p
    case Today => 0
    case Yesterday => 1
    case LastWeek => 2
    case Older => 3
  }

  /** The day a thread is dated by: its last message if it has one, else its creation. */
  function Day(t: Thread): int {
    if t.lastMessageAt.Some? then t.lastMessageAt.value else t.createdAt
  }

  /** The group of a day, seen from `today`. */
  function PeriodOf(day: int, today: int): (p: Period)
    ensures p == Today <==> day == today
    ensures p == Yesterday <==> day == today - 1
    ensures p == LastWeek <==> day != today && day != today - 1 && day >= today - 7
    ensures p == Older <==> day < today - 7
  {
    if day == today then Today
    else if day == today - 1 then Yesterday
    else if day >= today - 7 then LastWeek
    else Older
  }

  /** A day after today falls in the last-week group. */
  lemma FutureIsLastWeek(day: int, today: int)
    requires day > today
    ensures PeriodOf(day, today) == LastWeek
  {
  }

  function PeriodKey(today: int): Thread -> Period {
    (t: Thread) => PeriodOf(Day(t), today)
  }

  datatype ThreadGroup = ThreadGroup(period: Period, threads: seq<Thread>)

  predicate NonEmpty(g: ThreadGroup) { g.threads != [] }

  function Group(ts: seq<Thread>, today: int, p: Period): ThreadGroup {
    ThreadGroup(p, Bucket(ts, PeriodKey(today), p))
  }

  /** The four groups before the empty ones are dropped. */
  function AllGroups(ts: seq<Thread>, today: int): seq<ThreadGroup> {
    var key := PeriodKey(today);
    Four(Bucket(ts, key, Today), Bucket(ts, key, Yesterday), Bucket(ts, key, LastWeek), Bucket(ts, key, Older))
  }

  function Four(c0: seq<Thread>, c1: seq<Thread>, c2: seq<Thread>, c3: seq<Thread>): seq<ThreadGroup> {
    [ThreadGroup(Today, c0), ThreadGroup(Yesterday, c1), ThreadGroup(LastWeek, c2), ThreadGroup(Older, c3)]
  }

  /** `threadGroupByDate`. */
  function DateGroups(ts: seq<Thread>, today: int): seq<ThreadGroup> {
    Filter(AllGroups(ts, today), NonEmpty)
  }

  /** One more thread joins the group of its period and no other. */
  lemma PeriodStep(s: seq<Thread>, x: Thread, today: int)
    ensures var key, p := PeriodKey(today), PeriodOf(Day(x), today);
            && Bucket(s + [x], key, Today) == Bucket(s, key, Today) + (if p == Today then [x] else [])
            && Bucket(s + [x], key, Yesterday) == Bucket(s, key, Yesterday) + (if p == Yesterday then [x] else [])
            && Bucket(s + [x], key, LastWeek) == Bucket(s, key, LastWeek) + (if p == LastWeek then [x] else [])
            && Bucket(s + [x], key, Older) == Bucket(s, key, Older) + (if p == Older then [x] else [])
  {
    BucketSnoc(s, x, PeriodKey(today), Today);
    BucketSnoc(s, x, PeriodKey(today), Yesterday);
    BucketSnoc(s, x, PeriodKey(today), LastWeek);
    BucketSnoc(s, x, PeriodKey(today), Older);
  }

  /** `groups[b].threads.push(x)`. */
  function PushTo(gs: seq<ThreadGroup>, b: nat, x: Thread): seq<ThreadGroup>
    requires b < |gs|
  {
    gs[b := gs[b].(threads := gs[b].threads + [x])]
  }

  /** Pushing onto one of four groups, over free thread lists. */
  lemma PushFour(c0: seq<Thread>, c1: seq<Thread>, c2: seq<Thread>, c3: seq<Thread>, x: Thread)
    ensures PushTo(Four(c0, c1, c2, c3), 0, x) == Four(c0 + [x], c1, c2, c3)
    ensures PushTo(Four(c0, c1, c2, c3), 1, x) == Four(c0, c1 + [x], c2, c3)
    ensures PushTo(Four(c0, c1, c2, c3), 2, x) == Four(c0, c1, c2 + [x], c3)
    ensures PushTo(Four(c0, c1, c2, c3), 3, x) == Four(c0, c1, c2, c3 + [x])
  {
  }

  /** One more thread is pushed onto the group of its period. */
  lemma GroupsStep(s: seq<Thread>, x: Thread, today: int)
    ensures AllGroups(s + [x], today) == PushTo(AllGroups(s, today), Rank(PeriodOf(Day(x), today)), x)
  {
    var key := PeriodKey(today);
    PeriodStep(s, x, today);
    var c0, c1, c2, c3 := Bucket(s, key, Today), Bucket(s, key, Yesterday), Bucket(s, key, LastWeek), Bucket(s, key, Older);
    PushFour(c0, c1, c2, c3, x);
    assert c0 + [] == c0 && c1 + [] == c1 && c2 + [] == c2 && c3 + [] == c3;
    match PeriodOf(Day(x), today)
    case Today => assert AllGroups(s + [x], today) == Four(c0 + [x], c1, c2, c3);
    case Yesterday => assert AllGroups(s + [x], today) == Four(c0, c1 + [x], c2, c3);
    case LastWeek => assert AllGroups(s + [x], today) == Four(c0, c1, c2 + [x], c3);
    case Older => assert AllGroups(s + [x], today) == Four(c0, c1, c2, c3 + [x]);
  }

  /** `threadGroupByDate`: the four groups filled in display order, the empty ones
      dropped. */
  method GroupByDate(display: seq<Thread>, today: int) returns (result: seq<ThreadGroup>)
    ensures result == DateGroups(display, today)
  {
    if |display| == 0 {
      FilterNone(AllGroups(display, today), NonEmpty);
      return [];
    }
    var groups := new ThreadGroup[4];
    groups[0], groups[1], groups[2], groups[3] :=
      ThreadGroup(Today, []), ThreadGroup(Yesterday, []), ThreadGroup(LastWeek, []), ThreadGroup(Older, []);
    assert groups[..] == AllGroups([], today);
    for i := 0 to |display|
      invariant groups[..] == AllGroups(display[..i], today)
    {
      var thread := display[i];
      var threadDate := Day(thread);
      assert display[..i + 1] == display[..i] + [thread];
      GroupsStep(display[..i], thread, today);
      if threadDate == today {
        groups[0] := groups[0].(threads := groups[0].threads + [thread]);
      } else if threadDate == today - 1 {
        groups[1] := groups[1].(threads := groups[1].threads + [thread]);
      } else if threadDate >= today - 7 {
        groups[2] := groups[2].(threads := groups[2].threads + [thread]);
      } else {
        groups[3] := groups[3].(threads := groups[3].threads + [thread]);
      }
    }
    assert display[..|display|] == display;
    result := Filter(groups[..], NonEmpty);
  }

  // ---------------------------------------------------------------- properties

  function Size(gs: seq<ThreadGroup>): nat
    decreases |gs|
  {
    if gs == [] then 0 else |gs[0].threads| + Size(gs[1..])
  }

  lemma {:induction false} SizeDropsEmpty(gs: seq<ThreadGroup>)
    ensures Size(Filter(gs, NonEmpty)) == Size(gs)
    decreases |gs|
  {
    if gs != [] {
      SizeDropsEmpty(gs[1..]);
      var f := Filter(gs[1..], NonEmpty);
      if NonEmpty(gs[0]) {
        assert Filter(gs, NonEmpty) == [gs[0]] + f;
        assert ([gs[0]] + f)[1..] == f;
      } else {
        assert Filter(gs, NonEmpty) == [] + f == f;
      }
    }
  }

  lemma SizeOfFour(ts: seq<Thread>, today: int)
    ensures Size(AllGroups(ts, today)) ==
              |Bucket(ts, PeriodKey(today), Today)| + |Bucket(ts, PeriodKey(today), Yesterday)|
              + |Bucket(ts, PeriodKey(today), LastWeek)| + |Bucket(ts, PeriodKey(today), Older)|
  {
    var g0, g1, g2, g3 := Group(ts, today, Today), Group(ts, today, Yesterday), Group(ts, today, LastWeek), Group(ts, today, Older);
    assert Size([g3]) == |g3.threads| by { assert [g3][1..] == []; }
    assert Size([g2, g3]) == |g2.threads| + Size([g3]) by { assert [g2, g3][1..] == [g3]; }
    assert Size([g1, g2, g3]) == |g1.threads| + Size([g2, g3]) by { assert [g1, g2, g3][1..] == [g2, g3]; }
    assert Size([g0, g1, g2, g3]) == |g0.threads| + Size([g1, g2, g3]) by { assert [g0, g1, g2, g3][1..] == [g1, g2, g3]; }
  }

  lemma {:induction false} FourWay(ts: seq<Thread>, today: int)
    ensures |Bucket(ts, PeriodKey(today), Today)| + |Bucket(ts, PeriodKey(today), Yesterday)|
            + |Bucket(ts, PeriodKey(today), LastWeek)| + |Bucket(ts, PeriodKey(today), Older)| == |ts|
    decreases |ts|
  {
    if ts != [] {
      var p, x := ts[..|ts| - 1], ts[|ts| - 1];
      assert ts == p + [x];
      FourWay(p, today);
      PeriodStep(p, x, today);
    }
  }

  /** The groups hold every shown thread, and none twice: their sizes add up to the
      number of shown threads. */
  lemma DateGroupsConserve(ts: seq<Thread>, today: int)
    ensures Size(DateGroups(ts, today)) == |ts|
  {
    SizeDropsEmpty(AllGroups(ts, today));
    SizeOfFour(ts, today);
    FourWay(ts, today);
  }

  function ByRank(): (ThreadGroup, ThreadGroup) -> bool {
    (g: ThreadGroup, h: ThreadGroup) => Rank(g.period) < Rank(h.period)
  }

  /** The groups appear in the order today, yesterday, last week, older, each once. */
  lemma DateGroupsOrdered(ts: seq<Thread>, today: int)
    ensures var gs := DateGroups(ts, today);
            forall i, j :: 0 <= i < j < |gs| ==> Rank(gs[i].period) < Rank(gs[j].period)
  {
    var all := AllGroups(ts, today);
    forall i, j | 0 <= i < j < |all| ensures ByRank()(all[i], all[j]) {
      assert all[i].period == PERIODS[i] && all[j].period == PERIODS[j];
    }
    FilterSorted(all, NonEmpty, ByRank());
  }

  /** Every group is non-empty and keeps the display order of its threads, which are
      exactly the shown threads of its period. */
  lemma DateGroupsSublists(ts: seq<Thread>, today: int)
    ensures var gs := DateGroups(ts, today);
            forall i :: 0 <= i < |gs| ==>
              && gs[i].threads != []
              && IsSubsequence(gs[i].threads, ts)
              && forall t :: t in gs[i].threads <==> t in ts && PeriodOf(Day(t), today) == gs[i].period
  {
    var gs := DateGroups(ts, today);
    FilterMembers(AllGroups(ts, today), NonEmpty);
    forall i | 0 <= i < |gs|
      ensures IsSubsequence(gs[i].threads, ts)
      ensures forall t :: t in gs[i].threads <==> t in ts && PeriodOf(Day(t), today) == gs[i].period
    {
      assert gs[i] in AllGroups(ts, today);
      BucketSpec(ts, PeriodKey(today), gs[i].period);
    }
  }

  /** Each period some shown thread has is the period of exactly one group. */
  lemma DateGroupsPlace(ts: seq<Thread>, today: int, t: Thread)
    requires t in ts
    ensures var gs := DateGroups(ts, today);
            exists i :: 0 <= i < |gs| && gs[i].period == PeriodOf(Day(t), today) && t in gs[i].threads
  {
    var p := PeriodOf(Day(t), today);
    var g := Group(ts, today, p);
    BucketSpec(ts, PeriodKey(today), p);
    assert AllGroups(ts, today)[Rank(p)] == g;
    FilterMembers(AllGroups(ts, today), NonEmpty);
    assert g in DateGroups(ts, today);
  }
}
