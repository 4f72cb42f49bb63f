/** The chat page's grouping of stored conversations by date: sort newest
    first, put each conversation into the first time bucket whose start it is
    not earlier than, and list the non-empty buckets in a fixed order.  The
    four bucket starts are inputs (milliseconds); how they are derived from
    the local clock is not part of this model. */
module ChatGrouping {
  import opened Options
  import opened ChatPage

  datatype Bucket = Today | Yesterday | Previous7Days | ThisMonth | Older

  /** The key a bucket is stored under. */
  function BucketName(b: Bucket): (name: string)
    ensures name != []
  {
    match b
    case Today => "Today"
    case Yesterday => "Yesterday"
    case Previous7Days => "Previous 7 Days"
    case ThisMonth => "This Month"
    case Older => "Older"
  }

  /** Different buckets are stored under different keys. */
  lemma BucketNamesDistinct(b: Bucket, c: Bucket)
    ensures BucketName(b) == BucketName(c) <==> b == c
  {
    if b != c {
      assert BucketName(b)[0] != BucketName(c)[0] || |BucketName(b)| != |BucketName(c)| by {
        match b
        case Today =>
        case Yesterday =>
        case Previous7Days =>
        case ThisMonth =>
        case Older =>
      }
    }
  }

  /** The position of a bucket in the display order. */
  function Rank(b: Bucket): (n: nat)
    ensures n < 5
  {
    match b
    case Today => 0
    case Yesterday => 1
    case Previous7Days => 2
    case ThisMonth => 3
    case Older => 4
  }

  /** The display order of the buckets. */
  const BucketOrder: seq<Bucket> := [Today, Yesterday, Previous7Days, ThisMonth, Older]

  predicate IncreasingRanks(bs: seq<Bucket>) {
    forall i, j :: 0 <= i < j < |bs| ==> Rank(bs[i]) < Rank(bs[j])
  }

  lemma BucketOrderIncreasing()
    ensures IncreasingRanks(BucketOrder)
    ensures forall b :: b in BucketOrder
  {
    forall b ensures b in BucketOrder {
      assert BucketOrder[Rank(b)] == b;
    }
  }

  /** The starts of today, yesterday, the day seven days back and the month. */
  datatype Thresholds = Thresholds(todayStart: int, yesterdayStart: int, last7DaysStart: int, thisMonthStart: int)

  /** `chat.lastUpdated || chat.timestamp`: a `Date` is always truthy, so the
      last update is used whenever there is one. */
  function ChatTime(c: ChatHistory): (t: int)
    ensures c.lastUpdated.Some? ==> t == c.lastUpdated.value
    ensures c.lastUpdated.None? ==> t == c.timestamp
  {
    match c.lastUpdated
    case Some(u) => u
    case None => c.timestamp
  }

  /** The first bucket, in display order, whose start `t` has reached; the
      buckets are tested in turn and nothing assumes the starts are ordered. */
  function Classify(t: int, th: Thresholds): (b: Bucket)
    ensures b == Today <==> t >= th.todayStart
    ensures b == Yesterday <==> t < th.todayStart && t >= th.yesterdayStart
    ensures b == Previous7Days <==> t < th.todayStart && t < th.yesterdayStart && t >= th.last7DaysStart
    ensures b == ThisMonth <==>
              t < th.todayStart && t < th.yesterdayStart && t < th.last7DaysStart && t >= th.thisMonthStart
    ensures b == Older <==>
              t < th.todayStart && t < th.yesterdayStart && t < th.last7DaysStart && t < th.thisMonthStart
  {
    if t >= th.todayStart then Today
    else if t >= th.yesterdayStart then Yesterday
    else if t >= th.last7DaysStart then Previous7Days
    else if t >= th.thisMonthStart then ThisMonth
    else Older
  }

  /** A later time never lands in a later bucket, whatever the starts are:
      every test is "at or after some start", so whatever a time passes, a
      later time passes too. */
  lemma ClassifyMonotone(t: int, u: int, th: Thresholds)
    requires t >= u
    ensures Rank(Classify(t, th)) <= Rank(Classify(u, th))
  {
  }

  function BucketOf(c: ChatHistory, th: Thresholds): Bucket {
    Classify(ChatTime(c), th)
  }

  /* ---------------------------------------------------------------------- */
  /* Sorting newest first                                                    */
  /* ---------------------------------------------------------------------- */

  predicate NewestFirst(cs: seq<ChatHistory>) {
    forall i, j :: 0 <= i < j < |cs| ==> ChatTime(cs[i]) >= ChatTime(cs[j])
  }

  /** Puts `c` before the first conversation that is not newer than it, so
      that it stays ahead of the ones with the same time. */
  function Insert(c: ChatHistory, cs: seq<ChatHistory>): (r: seq<ChatHistory>)
    ensures multiset(r) == multiset(cs) + multiset{c}
    ensures r != [] && (r[0] == c || (cs != [] && r[0] == cs[0]))
  {
    if cs == [] || ChatTime(c) >= ChatTime(cs[0]) then [c] + cs
    else
      assert cs == [cs[0]] + cs[1..];
      [cs[0]] + Insert(c, cs[1..])
  }

  /** Inserting into a newest-first list keeps it newest first. */
  lemma {:induction false} InsertNewestFirst(c: ChatHistory, cs: seq<ChatHistory>)
    requires NewestFirst(cs)
    ensures NewestFirst(Insert(c, cs))
  {
    if !(cs == [] || ChatTime(c) >= ChatTime(cs[0])) {
      assert NewestFirst(cs[1..]);
      InsertNewestFirst(c, cs[1..]);
    }
  }

  /** `[...chats].sort((a, b) => time(b) - time(a))`: a stable sort, newest
      first. */
  function SortNewestFirst(cs: seq<ChatHistory>): (r: seq<ChatHistory>)
    ensures NewestFirst(r)
    ensures multiset(r) == multiset(cs)
  {
    if cs == [] then []
    else
      assert cs == [cs[0]] + cs[1..];
      InsertNewestFirst(cs[0], SortNewestFirst(cs[1..]));
      Insert(cs[0], SortNewestFirst(cs[1..]))
  }

  /* ---------------------------------------------------------------------- */
  /* Buckets                                                                 */
  /* ---------------------------------------------------------------------- */

  /** The conversations of `cs` that fall into `b`, in the order of `cs`. */
  function ChatsIn(cs: seq<ChatHistory>, th: Thresholds, b: Bucket): (r: seq<ChatHistory>)
    ensures |r| <= |cs|
  {
    if cs == [] then []
    else
      var last := cs[|cs| - 1];
      ChatsIn(cs[..|cs| - 1], th, b) + (if BucketOf(last, th) == b then [last] else [])
  }

  /** `ChatsIn` holds exactly the conversations of its bucket, with their
      multiplicities. */
  lemma {:induction false} ChatsInMembers(cs: seq<ChatHistory>, th: Thresholds, b: Bucket)
    ensures forall x :: x in ChatsIn(cs, th, b) <==> x in cs && BucketOf(x, th) == b
    ensures forall x :: BucketOf(x, th) == b ==> multiset(ChatsIn(cs, th, b))[x] == multiset(cs)[x]
  {
    if cs != [] {
      var init := cs[..|cs| - 1];
      ChatsInMembers(init, th, b);
      assert cs == init + [cs[|cs| - 1]];
    }
  }

  /** A bucket of a newest-first list is newest first. */
  lemma {:induction false} ChatsInNewestFirst(cs: seq<ChatHistory>, th: Thresholds, b: Bucket)
    requires NewestFirst(cs)
    ensures NewestFirst(ChatsIn(cs, th, b))
  {
    if cs != [] {
      var init := cs[..|cs| - 1];
      var last := cs[|cs| - 1];
      ChatsInNewestFirst(init, th, b);
      ChatsInMembers(init, th, b);
      var f := ChatsIn(init, th, b);
      forall x | x in f ensures ChatTime(x) >= ChatTime(last) {
        var k :| 0 <= k < |init| && init[k] == x;
        assert cs[k] == x;
      }
      NewestFirstSnoc(f, last);
    }
  }

  /** A conversation no newer than any of a newest-first list can follow it. */
  lemma NewestFirstSnoc(cs: seq<ChatHistory>, c: ChatHistory)
    requires NewestFirst(cs)
    requires forall x | x in cs :: ChatTime(x) >= ChatTime(c)
    ensures NewestFirst(cs + [c])
  {
    forall i, j | 0 <= i < j < |cs| + 1 ensures ChatTime((cs + [c])[i]) >= ChatTime((cs + [c])[j]) {
      assert (cs + [c])[i] == cs[i];
      if j == |cs| {
        assert cs[i] in cs;
      }
    }
  }

  /** A list none of whose conversations belongs to `b` has an empty bucket `b`. */
  lemma {:induction false} ChatsInEmpty(cs: seq<ChatHistory>, th: Thresholds, b: Bucket)
    requires forall i :: 0 <= i < |cs| ==> BucketOf(cs[i], th) != b
    ensures ChatsIn(cs, th, b) == []
  {
    if cs != [] {
      ChatsInEmpty(cs[..|cs| - 1], th, b);
    }
  }

  /** Adding one conversation at the end adds it to its own bucket only. */
  lemma ChatsInSnoc(cs: seq<ChatHistory>, x: ChatHistory, th: Thresholds, b: Bucket)
    ensures ChatsIn(cs + [x], th, b) == ChatsIn(cs, th, b) + (if BucketOf(x, th) == b then [x] else [])
  {
    assert (cs + [x])[..|cs|] == cs;
  }

  /* ---------------------------------------------------------------------- */
  /* Groups                                                                  */
  /* ---------------------------------------------------------------------- */

  /** One entry of the result: a bucket's key and its conversations. */
  datatype Group = Group(name: string, chats: seq<ChatHistory>)

  /** The buckets of `bs` that hold at least one conversation of `cs`, in the
      order of `bs`. */
  function Present(cs: seq<ChatHistory>, th: Thresholds, bs: seq<Bucket>): (r: seq<Bucket>)
    ensures forall b :: b in r <==> b in bs && ChatsIn(cs, th, b) != []
    ensures IncreasingRanks(bs) ==> IncreasingRanks(r)
  {
    if bs == [] then []
    else
      var b := bs[|bs| - 1];
      var earlier := Present(cs, th, bs[..|bs| - 1]);
      assert IncreasingRanks(bs) ==> forall x :: x in earlier ==> Rank(x) < Rank(b);
      earlier + (if ChatsIn(cs, th, b) != [] then [b] else [])
  }

  /** The groups for the buckets `bs` of the sorted list `sorted`. */
  function GroupsOf(sorted: seq<ChatHistory>, th: Thresholds, bs: seq<Bucket>): seq<Group> {
    if bs == [] then []
    else
      var b := bs[|bs| - 1];
      GroupsOf(sorted, th, bs[..|bs| - 1]) +
      (if ChatsIn(sorted, th, b) != [] then [Group(BucketName(b), ChatsIn(sorted, th, b))] else [])
  }

  /** The groups are the present buckets, each under its key with its
      conversations. */
  lemma {:induction false} GroupsArePresent(sorted: seq<ChatHistory>, th: Thresholds, bs: seq<Bucket>)
    ensures |GroupsOf(sorted, th, bs)| == |Present(sorted, th, bs)|
    ensures forall i :: 0 <= i < |Present(sorted, th, bs)| ==>
                          GroupsOf(sorted, th, bs)[i] ==
                          Group(BucketName(Present(sorted, th, bs)[i]), ChatsIn(sorted, th, Present(sorted, th, bs)[i]))
  {
    if bs != [] {
      GroupsArePresent(sorted, th, bs[..|bs| - 1]);
    }
  }

  /** What `groupChatsByDate` returns: the non-empty buckets of the sorted
      list, in display order. */
  function Grouped(chats: seq<ChatHistory>, th: Thresholds): seq<Group> {
    GroupsOf(SortNewestFirst(chats), th, BucketOrder)
  }

  /** Adding a bucket at the end of `bs` adds its group when it is not empty. */
  lemma GroupsOfSnoc(sorted: seq<ChatHistory>, th: Thresholds, bs: seq<Bucket>, b: Bucket)
    ensures GroupsOf(sorted, th, bs + [b]) ==
            GroupsOf(sorted, th, bs) +
            (if ChatsIn(sorted, th, b) != [] then [Group(BucketName(b), ChatsIn(sorted, th, b))] else [])
  {
    assert (bs + [b])[..|bs|] == bs;
  }

  /** The lists under each bucket's key after pushing every conversation of
      `sorted` in turn. */
  predicate Pushed(byName: map<string, seq<ChatHistory>>, cs: seq<ChatHistory>, th: Thresholds) {
    && (forall b :: BucketName(b) in byName <==> ChatsIn(cs, th, b) != [])
    && (forall b :: BucketName(b) in byName ==> byName[BucketName(b)] == ChatsIn(cs, th, b))
  }

  /** `groupChatsByDate`: one pass over the sorted conversations pushes each
      onto the list under its bucket's key, then a pass over the keys in
      display order copies the lists that exist. */
  method GroupChatsByDate(chats: seq<ChatHistory>, th: Thresholds) returns (groups: seq<Group>)
    ensures groups == Grouped(chats, th)
  {
    var sorted := SortNewestFirst(chats);
    var byName := PushAll(sorted, th);
    groups := InDisplayOrder(byName, sorted, th);
  }

  /** The `forEach` loop: creates a bucket's list on its first conversation
      and pushes every conversation onto its bucket's list. */
  method PushAll(sorted: seq<ChatHistory>, th: Thresholds) returns (byName: map<string, seq<ChatHistory>>)
    ensures Pushed(byName, sorted, th)
  {
    byName := map[];
    var i := 0;
    while i < |sorted|
      invariant 0 <= i <= |sorted|
      invariant Pushed(byName, sorted[..i], th)
    {
      var chat := sorted[i];
      var name := BucketName(BucketOf(chat, th));
      if name !in byName {
        byName := byName[name := []];
      }
      byName := byName[name := byName[name] + [chat]];
      assert sorted[..i + 1] == sorted[..i] + [chat];
      forall b ensures ChatsIn(sorted[..i + 1], th, b) ==
                       ChatsIn(sorted[..i], th, b) + (if BucketOf(chat, th) == b then [chat] else []) {
        ChatsInSnoc(sorted[..i], chat, th, b);
      }
      forall b ensures BucketName(b) == name <==> b == BucketOf(chat, th) {
        BucketNamesDistinct(b, BucketOf(chat, th));
      }
      i := i + 1;
    }
    assert sorted[..i] == sorted;
  }

  /** The second loop: the existing lists, under the keys in display order. */
  method InDisplayOrder(byName: map<string, seq<ChatHistory>>, sorted: seq<ChatHistory>, th: Thresholds)
    returns (groups: seq<Group>)
    requires Pushed(byName, sorted, th)
    ensures groups == GroupsOf(sorted, th, BucketOrder)
  {
    groups := [];
    var k := 0;
    while k < |BucketOrder|
      invariant 0 <= k <= |BucketOrder|
      invariant groups == GroupsOf(sorted, th, BucketOrder[..k])
    {
      var b := BucketOrder[k];
      var name := BucketName(b);
      assert BucketOrder[..k + 1] == BucketOrder[..k] + [b];
      GroupsOfSnoc(sorted, th, BucketOrder[..k], b);
      assert name in byName <==> ChatsIn(sorted, th, b) != [];
      if name in byName {
        assert byName[name] == ChatsIn(sorted, th, b);
        groups := groups + [Group(name, byName[name])];
      }
      k := k + 1;
    }
    assert BucketOrder[..k] == BucketOrder;
  }

  /* ---------------------------------------------------------------------- */
  /* Properties of the grouping                                              */
  /* ---------------------------------------------------------------------- */

  /** The groups' conversations, one group after the other. */
  function Flatten(gs: seq<Group>): (r: seq<ChatHistory>)
    ensures forall x :: x in r <==> exists i :: 0 <= i < |gs| && x in gs[i].chats
  {
    if gs == [] then []
    else
      var r := Flatten(gs[..|gs| - 1]) + gs[|gs| - 1].chats;
      assert forall i :: 0 <= i < |gs| - 1 ==> gs[..|gs| - 1][i] == gs[i];
      r
  }

  /** The buckets' lists for `bs`, one after the other. */
  function Concat(cs: seq<ChatHistory>, th: Thresholds, bs: seq<Bucket>): seq<ChatHistory> {
    if bs == [] then [] else Concat(cs, th, bs[..|bs| - 1]) + ChatsIn(cs, th, bs[|bs| - 1])
  }

  /** Flattening the groups gives the buckets' lists one after the other: an
      omitted group is an empty list. */
  lemma {:induction false} FlattenGroupsOf(cs: seq<ChatHistory>, th: Thresholds, bs: seq<Bucket>)
    ensures Flatten(GroupsOf(cs, th, bs)) == Concat(cs, th, bs)
  {
    if bs != [] {
      var init := bs[..|bs| - 1];
      var b := bs[|bs| - 1];
      FlattenGroupsOf(cs, th, init);
      var g := GroupsOf(cs, th, init);
      if ChatsIn(cs, th, b) != [] {
        var last := [Group(BucketName(b), ChatsIn(cs, th, b))];
        assert (g + last)[..|g|] == g;
      } else {
        assert GroupsOf(cs, th, bs) == g;
      }
    }
  }

  lemma {:induction false} ConcatOfNothing(th: Thresholds, bs: seq<Bucket>)
    ensures Concat([], th, bs) == []
  {
    if bs != [] {
      ConcatOfNothing(th, bs[..|bs| - 1]);
    }
  }

  /** Adding a conversation whose bucket is not before any earlier one's adds
      it at the very end of the buckets' lists, when its bucket is listed. */
  lemma {:induction false} ConcatSnoc(cs: seq<ChatHistory>, x: ChatHistory, th: Thresholds, bs: seq<Bucket>)
    requires IncreasingRanks(bs)
    requires forall i :: 0 <= i < |cs| ==> Rank(BucketOf(cs[i], th)) <= Rank(BucketOf(x, th))
    ensures Concat(cs + [x], th, bs) == Concat(cs, th, bs) + (if BucketOf(x, th) in bs then [x] else [])
  {
    if bs != [] {
      var init := bs[..|bs| - 1];
      var b := bs[|bs| - 1];
      var bx := BucketOf(x, th);
      assert IncreasingRanks(init);
      ConcatSnoc(cs, x, th, init);
      ChatsInSnoc(cs, x, th, b);
      assert bx in bs <==> bx in init || bx == b;
      if b == bx {
        assert bx !in init;
      } else if bx in init {
        forall i | 0 <= i < |cs| ensures BucketOf(cs[i], th) != b {
        }
        ChatsInEmpty(cs, th, b);
      }
    }
  }

  /** A list whose buckets never go back in display order is the buckets'
      lists one after the other. */
  lemma {:induction false} ConcatOfRankSorted(cs: seq<ChatHistory>, th: Thresholds)
    requires forall i, j :: 0 <= i < j < |cs| ==> Rank(BucketOf(cs[i], th)) <= Rank(BucketOf(cs[j], th))
    ensures Concat(cs, th, BucketOrder) == cs
  {
    BucketOrderIncreasing();
    if cs == [] {
      ConcatOfNothing(th, BucketOrder);
    } else {
      var init := cs[..|cs| - 1];
      var x := cs[|cs| - 1];
      ConcatOfRankSorted(init, th);
      ConcatSnoc(init, x, th, BucketOrder);
      assert init + [x] == cs;
    }
  }

  /** Newest first means the buckets never go back in display order. */
  lemma NewestFirstRankSorted(cs: seq<ChatHistory>, th: Thresholds)
    requires NewestFirst(cs)
    ensures forall i, j :: 0 <= i < j < |cs| ==> Rank(BucketOf(cs[i], th)) <= Rank(BucketOf(cs[j], th))
  {
    forall i, j | 0 <= i < j < |cs| ensures Rank(BucketOf(cs[i], th)) <= Rank(BucketOf(cs[j], th)) {
      ClassifyMonotone(ChatTime(cs[i]), ChatTime(cs[j]), th);
    }
  }

  /** Reading the groups one after the other gives back every conversation,
      newest first: because a newer conversation never falls into a later
      bucket, grouping does not reorder the sorted list. */
  lemma GroupsFlattenToSorted(chats: seq<ChatHistory>, th: Thresholds)
    ensures Flatten(Grouped(chats, th)) == SortNewestFirst(chats)
    ensures multiset(Flatten(Grouped(chats, th))) == multiset(chats)
  {
    var sorted := SortNewestFirst(chats);
    FlattenGroupsOf(sorted, th, BucketOrder);
    NewestFirstRankSorted(sorted, th);
    ConcatOfRankSorted(sorted, th);
  }

  /** The buckets that have a group, in display order. */
  function PresentBuckets(chats: seq<ChatHistory>, th: Thresholds): seq<Bucket> {
    Present(SortNewestFirst(chats), th, BucketOrder)
  }

  /** The keys follow the display order, each at most once: the groups are
      the present buckets, under their keys. */
  lemma GroupsInDisplayOrder(chats: seq<ChatHistory>, th: Thresholds)
    ensures IncreasingRanks(PresentBuckets(chats, th))
    ensures |Grouped(chats, th)| == |PresentBuckets(chats, th)|
    ensures forall i :: 0 <= i < |Grouped(chats, th)| ==>
                          Grouped(chats, th)[i].name == BucketName(PresentBuckets(chats, th)[i])
  {
    BucketOrderIncreasing();
    GroupsArePresent(SortNewestFirst(chats), th, BucketOrder);
  }

  /** A bucket has a group exactly when some conversation falls into it. */
  lemma PresentIffSomeChat(chats: seq<ChatHistory>, th: Thresholds, b: Bucket)
    ensures b in PresentBuckets(chats, th) <==> exists c :: c in chats && BucketOf(c, th) == b
  {
    var sorted := SortNewestFirst(chats);
    BucketOrderIncreasing();
    ChatsInMembers(sorted, th, b);
    if ChatsIn(sorted, th, b) != [] {
      var c := ChatsIn(sorted, th, b)[0];
      assert c in multiset(sorted);
    } else {
      forall c | c in chats ensures BucketOf(c, th) != b {
        assert c in multiset(chats);
      }
    }
  }

  /** Every group is non-empty and newest first, and holds only
      conversations of the bucket its key names. */
  lemma GroupsNewestFirst(chats: seq<ChatHistory>, th: Thresholds)
    ensures forall i :: 0 <= i < |Grouped(chats, th)| ==>
                          Grouped(chats, th)[i].chats != [] && NewestFirst(Grouped(chats, th)[i].chats)
    ensures forall i, c :: 0 <= i < |Grouped(chats, th)| && c in Grouped(chats, th)[i].chats ==>
                             c in chats && Grouped(chats, th)[i].name == BucketName(BucketOf(c, th))
  {
    var sorted := SortNewestFirst(chats);
    var present := Present(sorted, th, BucketOrder);
    GroupsArePresent(sorted, th, BucketOrder);
    var g := Grouped(chats, th);
    forall i | 0 <= i < |g|
      ensures g[i].chats != [] && NewestFirst(g[i].chats)
      ensures forall c :: c in g[i].chats ==> c in chats && g[i].name == BucketName(BucketOf(c, th))
    {
      assert present[i] in present;
      ChatsInNewestFirst(sorted, th, present[i]);
      ChatsInMembers(sorted, th, present[i]);
      forall c | c in g[i].chats ensures c in chats {
        assert c in multiset(sorted);
      }
    }
  }

  /** Every conversation appears in some group. */
  lemma EveryChatInAGroup(chats: seq<ChatHistory>, th: Thresholds, c: ChatHistory)
    requires c in chats
    ensures exists i :: 0 <= i < |Grouped(chats, th)| && c in Grouped(chats, th)[i].chats
  {
    GroupsFlattenToSorted(chats, th);
    assert c in multiset(chats);
    assert c in multiset(Flatten(Grouped(chats, th)));
    assert c in Flatten(Grouped(chats, th));
  }

  /** No conversation appears in two groups. */
  lemma NoChatInTwoGroups(chats: seq<ChatHistory>, th: Thresholds, i: nat, j: nat, c: ChatHistory)
    requires i < j < |Grouped(chats, th)| && c in Grouped(chats, th)[i].chats
    ensures c !in Grouped(chats, th)[j].chats
  {
    var present := PresentBuckets(chats, th);
    GroupsInDisplayOrder(chats, th);
    GroupsNewestFirst(chats, th);
    BucketNamesDistinct(present[i], present[j]);
    assert Rank(present[i]) < Rank(present[j]);
    assert Grouped(chats, th)[i].name == BucketName(BucketOf(c, th));
    assert Grouped(chats, th)[j].name != BucketName(BucketOf(c, th));
  }
}
