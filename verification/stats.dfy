/** Member reply statistics of lib/data/stats.ts. The aggregate query
    (messages of a mailbox written by staff, grouped by author, optionally
    bounded by date) is a filter and count over a sequence of messages with
    integer timestamps; the in-memory merge defaults missing counts to 0 and
    missing roles to "afk", then sorts by descending reply count. */
module Stats {
  import opened Wrappers
  import opened Js
  import opened Schema

  /** A row of `conversationMessages`, restricted to the columns the query reads. */
  datatype Message = Message(id: int, conversationId: int, role: string, userId: Option<string>, createdAt: int)

  /** The `conversations` table as conversation id to mailbox id. */
  type Conversations = map<int, int>

  /** The optional inclusive bounds on a message's creation time; an absent
      date range is `DateRange(None, None)`. */
  datatype DateRange = DateRange(startDate: Option<int>, endDate: Option<int>)

  /** One entry of `MemberStats`. */
  datatype MemberStat = MemberStat(id: string, email: Option<string>, displayName: string, replyCount: nat, role: string)

  /** One row of the grouped query: an author (possibly null) and its count. */
  datatype AggRow = AggRow(id: Option<string>, replyCount: nat)

  // ---------------------------------------------------------------------------
  // The aggregate query

  /** Each bound applies only when it is supplied, and both are inclusive. */
  predicate InRange(t: int, range: DateRange) {
    && (range.startDate.None? || range.startDate.value <= t)
    && (range.endDate.None? || t <= range.endDate.value)
  }

  /** A staff reply in the mailbox within the date range, whoever wrote it. */
  predicate IsReply(m: Message, mailbox: Mailbox, conversations: Conversations, range: DateRange) {
    && m.conversationId in conversations
    && conversations[m.conversationId] == mailbox.id
    && m.role == "staff"
    && InRange(m.createdAt, range)
  }

  /** The `WHERE` clause: a staff reply of the mailbox within the range whose
      author is among the members (a null author is never `IN` the list). */
  predicate Counted(m: Message, mailbox: Mailbox, conversations: Conversations, memberIds: seq<string>,
                    range: DateRange) {
    IsReply(m, mailbox, conversations, range) && m.userId.Some? && m.userId.value in memberIds
  }

  /** The messages the query counts, in order. */
  function CountedMessages(messages: seq<Message>, mailbox: Mailbox, conversations: Conversations,
                           memberIds: seq<string>, range: DateRange): (r: seq<Message>)
    ensures forall m :: m in r <==> m in messages && Counted(m, mailbox, conversations, memberIds, range)
    ensures |r| <= |messages|
  {
    if messages == [] then []
    else
      var last := messages[|messages| - 1];
      var prefix := CountedMessages(messages[..|messages| - 1], mailbox, conversations, memberIds, range);
      assert messages == messages[..|messages| - 1] + [last];
      if Counted(last, mailbox, conversations, memberIds, range) then prefix + [last] else prefix
  }

  /** The number of messages by `author`: positive iff one of them has it. */
  function CountOf(ms: seq<Message>, author: Option<string>): (n: nat)
    ensures n <= |ms|
    ensures n > 0 <==> exists i :: 0 <= i < |ms| && ms[i].userId == author
  {
    if ms == [] then 0
    else
      var n := CountOf(ms[..|ms| - 1], author) + (if ms[|ms| - 1].userId == author then 1 else 0);
      assert forall i :: 0 <= i < |ms| - 1 ==> ms[..|ms| - 1][i] == ms[i];
      n
  }

  /** The distinct authors of `ms`, in order of first appearance. */
  function Authors(ms: seq<Message>): (a: seq<Option<string>>)
    ensures forall x :: x in a <==> exists i :: 0 <= i < |ms| && ms[i].userId == x
    ensures forall i, j :: 0 <= i < j < |a| ==> a[i] != a[j]
  {
    if ms == [] then []
    else
      var prev := Authors(ms[..|ms| - 1]);
      var x := ms[|ms| - 1].userId;
      assert forall i :: 0 <= i < |ms| - 1 ==> ms[..|ms| - 1][i] == ms[i];
      if x in prev then prev else prev + [x]
  }

  /** `GROUP BY userId` with `count(id)`: one row per distinct author, whose
      count is positive and equals that author's number of messages. */
  function Aggregate(ms: seq<Message>): (rows: seq<AggRow>)
    ensures forall i, j :: 0 <= i < j < |rows| ==> rows[i].id != rows[j].id
    ensures forall i :: 0 <= i < |rows| ==> rows[i].replyCount == CountOf(ms, rows[i].id) > 0
    ensures forall x :: (exists i :: 0 <= i < |rows| && rows[i].id == x) <==> CountOf(ms, x) > 0
  {
    var a := Authors(ms);
    var rows := seq(|a|, i requires 0 <= i < |a| => AggRow(a[i], CountOf(ms, a[i])));
    assert forall i :: 0 <= i < |rows| ==> rows[i].id == a[i] && a[i] in a;
    forall x ensures (exists i :: 0 <= i < |rows| && rows[i].id == x) <==> CountOf(ms, x) > 0 {
      if CountOf(ms, x) > 0 {
        assert x in a;
        var i :| 0 <= i < |a| && a[i] == x;
        assert rows[i].id == x;
      }
    }
    rows
  }

  // ---------------------------------------------------------------------------
  // The in-memory merge

  /** The `reduce` of the grouped rows into a record keyed by author: a row
      whose author is falsy (null or "") is skipped, and a later row
      overrides an earlier one. */
  function ReplyCounts(rows: seq<AggRow>): (acc: map<string, nat>)
    ensures forall id :: id in acc <==> id != "" && exists i :: 0 <= i < |rows| && rows[i].id == Some(id)
    ensures forall i :: 0 <= i < |rows| && Truthy(rows[i].id)
                        && (forall j :: i < j < |rows| ==> rows[j].id != rows[i].id) ==>
      acc[rows[i].id.value] == rows[i].replyCount
  {
    if rows == [] then map[]
    else
      var acc := ReplyCounts(rows[..|rows| - 1]);
      var row := rows[|rows| - 1];
      assert forall i :: 0 <= i < |rows| - 1 ==> rows[..|rows| - 1][i] == rows[i];
      if Truthy(row.id) then acc[row.id.value := row.replyCount] else acc
  }

  /** `replyCounts[id] || 0`. */
  function ReplyCountFor(replyCounts: map<string, nat>, id: string): nat {
    if id in replyCounts then replyCounts[id] else 0
  }

  /** The merged count of every non-empty author is its number of counted
      messages; the empty id always gets 0, since the reduce skips it. */
  lemma AggregateThenReduce(ms: seq<Message>, id: string)
    ensures ReplyCountFor(ReplyCounts(Aggregate(ms)), id) == if id == "" then 0 else CountOf(ms, Some(id))
  {
    var rows := Aggregate(ms);
    if id != "" && CountOf(ms, Some(id)) > 0 {
      var i :| 0 <= i < |rows| && rows[i].id == Some(id);
      assert forall j :: i < j < |rows| ==> rows[j].id != rows[i].id;
    }
  }

  /** One joined user row as merged: display name `displayName || email || id`
      without trimming, the count or 0, and the stored role or "afk" when the
      access is missing or its role is empty. */
  function StatOf(row: EnhancedUser, replyCounts: map<string, nat>): MemberStat {
    var role := if row.access.Some? then Some(row.access.value.role) else None;
    MemberStat(row.id, row.email, Or(row.displayName, Or(row.email, row.id)),
               ReplyCountFor(replyCounts, row.id), Or(role, RoleName(Afk)))
  }

  /** `allUsers.map(user => user.id)`. */
  function RowIds(rows: seq<EnhancedUser>): (ids: seq<string>)
    ensures |ids| == |rows|
    ensures forall i :: 0 <= i < |rows| ==> ids[i] == rows[i].id
  {
    if rows == [] then [] else [rows[0].id] + RowIds(rows[1..])
  }

  /** The merged entries before sorting, one per row, in order. */
  function Merge(rows: seq<EnhancedUser>, replyCounts: map<string, nat>): (r: seq<MemberStat>)
    ensures |r| == |rows|
    ensures forall i :: 0 <= i < |rows| ==> r[i] == StatOf(rows[i], replyCounts)
  {
    if rows == [] then [] else [StatOf(rows[0], replyCounts)] + Merge(rows[1..], replyCounts)
  }

  // ---------------------------------------------------------------------------
  // Sorting by descending reply count (a stable sort, as JavaScript's is)

  /** Non-increasing reply counts. */
  predicate SortedDesc(s: seq<MemberStat>) {
    forall i, j :: 0 <= i < j < |s| ==> s[i].replyCount >= s[j].replyCount
  }

  /** The entries of `s` with reply count `c`, in their order in `s`. */
  function WithCount(s: seq<MemberStat>, c: nat): seq<MemberStat> {
    if s == [] then [] else (if s[0].replyCount == c then [s[0]] else []) + WithCount(s[1..], c)
  }

  /** `WithCount` keeps exactly the entries of the given count. */
  lemma {:induction false} WithCountMember(s: seq<MemberStat>, c: nat, x: MemberStat)
    ensures x in WithCount(s, c) <==> x in s && x.replyCount == c
  {
    if s != [] {
      WithCountMember(s[1..], c, x);
      assert s == [s[0]] + s[1..];
    }
  }

  /** All counts of `s` are at most `bound`. */
  predicate AtMost(s: seq<MemberStat>, bound: nat) {
    forall i :: 0 <= i < |s| ==> s[i].replyCount <= bound
  }

  /** Insert `x` before the first entry whose count is not greater than its
      own, so that it precedes the entries of equal count. */
  function Insert(x: MemberStat, s: seq<MemberStat>): (r: seq<MemberStat>)
    requires SortedDesc(s)
    ensures SortedDesc(r)
    ensures multiset(r) == multiset(s) + multiset{x}
    ensures forall bound: nat :: AtMost(s, bound) && x.replyCount <= bound ==> AtMost(r, bound)
  {
    if s == [] then
      [x]
    else if x.replyCount >= s[0].replyCount then
      ConsSorted(x, s);
      [x] + s
    else
      var rest := Insert(x, s[1..]);
      assert AtMost(s[1..], s[0].replyCount);
      ConsSorted(s[0], rest);
      assert s == [s[0]] + s[1..];
      [s[0]] + rest
  }

  /** The first entry of a sorted sequence has the largest count. */
  lemma HeadIsMax(s: seq<MemberStat>, y: MemberStat)
    requires SortedDesc(s) && y in s
    ensures y.replyCount <= s[0].replyCount
  {
    var k :| 0 <= k < |s| && s[k] == y;
    assert k == 0 || s[0].replyCount >= s[k].replyCount;
  }

  lemma ConsSorted(a: MemberStat, t: seq<MemberStat>)
    requires SortedDesc(t)
    requires t == [] || t[0].replyCount <= a.replyCount
    ensures SortedDesc([a] + t)
  {
  }

  lemma WithCountCons(a: MemberStat, t: seq<MemberStat>, c: nat)
    ensures WithCount([a] + t, c) == (if a.replyCount == c then [a] else []) + WithCount(t, c)
  {
    assert ([a] + t)[1..] == t;
  }

  /** `x` lands before every entry of its own count and leaves the order of
      the other entries alone. */
  lemma {:induction false} InsertStable(x: MemberStat, s: seq<MemberStat>, c: nat)
    requires SortedDesc(s)
    ensures WithCount(Insert(x, s), c) == (if x.replyCount == c then [x] + WithCount(s, c) else WithCount(s, c))
  {
    if s == [] {
      WithCountCons(x, [], c);
    } else if x.replyCount >= s[0].replyCount {
      WithCountCons(x, s, c);
    } else {
      InsertStable(x, s[1..], c);
      WithCountCons(s[0], Insert(x, s[1..]), c);
      WithCountCons(s[0], s[1..], c);
      assert s == [s[0]] + s[1..];
    }
  }

  /** `.sort((a, b) => b.replyCount - a.replyCount)`: a permutation sorted by
      non-increasing count in which entries of equal count keep their order. */
  function SortByReplyCount(s: seq<MemberStat>): (r: seq<MemberStat>)
    ensures SortedDesc(r)
    ensures multiset(r) == multiset(s)
    ensures forall c :: WithCount(r, c) == WithCount(s, c)
  {
    if s == [] then []
    else
      var rest := SortByReplyCount(s[1..]);
      assert s == [s[0]] + s[1..];
      assert forall c :: WithCount(Insert(s[0], rest), c) == WithCount(s, c) by {
        forall c ensures WithCount(Insert(s[0], rest), c) == WithCount(s, c) {
          InsertStable(s[0], rest, c);
          WithCountCons(s[0], s[1..], c);
        }
      }
      Insert(s[0], rest)
  }

  /** A stable sort by descending count has only one possible outcome: two
      sorted sequences with the same entries of each count, in the same
      order, are equal. So the sorted merge does not depend on how the
      sort is implemented. */
  lemma {:induction false} StableSortIsUnique(t: seq<MemberStat>, u: seq<MemberStat>)
    requires SortedDesc(t) && SortedDesc(u)
    requires forall c :: WithCount(t, c) == WithCount(u, c)
    ensures t == u
    decreases |t|
  {
    if t == [] && u == [] {
      return;
    }
    if t == [] {
      WithCountMember(u, u[0].replyCount, u[0]);
      WithCountMember(t, u[0].replyCount, u[0]);
      return;
    }
    if u == [] {
      WithCountMember(t, t[0].replyCount, t[0]);
      WithCountMember(u, t[0].replyCount, t[0]);
      return;
    }
    SameHead(t, u);
    SameTails(t, u);
    StableSortIsUnique(t[1..], u[1..]);
    assert t == [t[0]] + t[1..] && u == [u[0]] + u[1..];
  }

  lemma SameHead(t: seq<MemberStat>, u: seq<MemberStat>)
    requires SortedDesc(t) && SortedDesc(u) && t != [] && u != []
    requires forall c :: WithCount(t, c) == WithCount(u, c)
    ensures t[0] == u[0]
  {
    var c0, c1 := t[0].replyCount, u[0].replyCount;
    WithCountMember(t, c0, t[0]);
    WithCountMember(u, c0, t[0]);
    HeadIsMax(u, t[0]);
    WithCountMember(u, c1, u[0]);
    WithCountMember(t, c1, u[0]);
    HeadIsMax(t, u[0]);
    WithCountCons(t[0], t[1..], c0);
    WithCountCons(u[0], u[1..], c0);
    assert t == [t[0]] + t[1..] && u == [u[0]] + u[1..];
    assert WithCount(t, c0)[0] == t[0];
  }

  lemma SameTails(t: seq<MemberStat>, u: seq<MemberStat>)
    requires t != [] && u != [] && t[0] == u[0]
    requires forall c :: WithCount(t, c) == WithCount(u, c)
    ensures forall c :: WithCount(t[1..], c) == WithCount(u[1..], c)
  {
    forall c ensures WithCount(t[1..], c) == WithCount(u[1..], c) {
      SameTailAt(t, u, c);
    }
  }

  lemma SameTailAt(t: seq<MemberStat>, u: seq<MemberStat>, c: nat)
    requires t != [] && u != [] && t[0] == u[0]
    requires WithCount(t, c) == WithCount(u, c)
    ensures WithCount(t[1..], c) == WithCount(u[1..], c)
  {
    var p := if t[0].replyCount == c then [t[0]] else [];
    assert WithCount(t, c) == p + WithCount(t[1..], c);
    assert WithCount(u, c) == p + WithCount(u[1..], c);
    assert WithCount(t[1..], c) == (p + WithCount(t[1..], c))[|p|..];
  }

  // ---------------------------------------------------------------------------
  // getMemberStats

  /** The number of staff replies `id` wrote in the mailbox within the range:
      the reference count each member's entry must carry. */
  function RepliesBy(messages: seq<Message>, mailbox: Mailbox, conversations: Conversations,
                     range: DateRange, id: string): nat
  {
    if messages == [] then 0
    else
      var m := messages[|messages| - 1];
      RepliesBy(messages[..|messages| - 1], mailbox, conversations, range, id)
        + (if m.userId == Some(id) && IsReply(m, mailbox, conversations, range) then 1 else 0)
  }

  /** The entry each user must have: its id and email, `displayName || email
      || id`, its staff replies in the mailbox within the range (none for an
      empty id, whose count the reduce drops), and its stored role or "afk". */
  function ExpectedStat(user: AuthUser, profiles: Profiles, messages: seq<Message>, mailbox: Mailbox,
                        conversations: Conversations, range: DateRange): MemberStat
  {
    var p := ProfileOf(profiles, user.id);
    var name := if p.Some? then p.value.displayName else None;
    var role := if p.Some? && p.value.access.Some? then p.value.access.value.role else "";
    MemberStat(user.id, user.email, Or(name, Or(user.email, user.id)),
               if user.id == "" then 0 else RepliesBy(messages, mailbox, conversations, range, user.id),
               if role != "" then role else "afk")
  }

  /** The expected entries, one per user, in user order. */
  function ExpectedStats(users: seq<AuthUser>, profiles: Profiles, messages: seq<Message>, mailbox: Mailbox,
                         conversations: Conversations, range: DateRange): seq<MemberStat>
  {
    seq(|users|, i requires 0 <= i < |users| => ExpectedStat(users[i], profiles, messages, mailbox, conversations, range))
  }

  /** `getMemberStats`: the users left-joined with their profiles, the
      aggregate query over `messages`, and the merge, sorted. The result holds
      exactly the expected entry of each user (a permutation of them), sorted
      by non-increasing count, with users of equal count in user order. */
  function MemberStats(mailbox: Mailbox, range: DateRange, users: seq<AuthUser>, profiles: Profiles,
                       messages: seq<Message>, conversations: Conversations): (r: seq<MemberStat>)
    ensures |r| == |users|
    ensures multiset(r) == multiset(ExpectedStats(users, profiles, messages, mailbox, conversations, range))
    ensures SortedDesc(r)
    ensures forall c :: WithCount(r, c) == WithCount(ExpectedStats(users, profiles, messages, mailbox, conversations, range), c)
  {
    var rows := LeftJoin(users, profiles);
    var counted := CountedMessages(messages, mailbox, conversations, RowIds(rows), range);
    var merged := Merge(rows, ReplyCounts(Aggregate(counted)));
    MergeIsExpected(mailbox, range, users, profiles, messages, conversations);
    assert |multiset(SortByReplyCount(merged))| == |merged|;
    SortByReplyCount(merged)
  }

  /** The unsorted merge is the expected entry of each user in user order. */
  lemma MergeIsExpected(mailbox: Mailbox, range: DateRange, users: seq<AuthUser>, profiles: Profiles,
                        messages: seq<Message>, conversations: Conversations)
    ensures var rows := LeftJoin(users, profiles);
      var counted := CountedMessages(messages, mailbox, conversations, RowIds(rows), range);
      Merge(rows, ReplyCounts(Aggregate(counted))) == ExpectedStats(users, profiles, messages, mailbox, conversations, range)
  {
    var rows := LeftJoin(users, profiles);
    var ids := RowIds(rows);
    var counted := CountedMessages(messages, mailbox, conversations, ids, range);
    var merged := Merge(rows, ReplyCounts(Aggregate(counted)));
    var expected := ExpectedStats(users, profiles, messages, mailbox, conversations, range);
    forall i | 0 <= i < |users|
      ensures merged[i] == expected[i]
    {
      var id := users[i].id;
      assert id == ids[i];
      AggregateThenReduce(counted, id);
      CountedByMember(messages, mailbox, conversations, ids, range, id);
      StatOfIsExpected(users[i], profiles, ReplyCounts(Aggregate(counted)), messages, mailbox, conversations, range);
    }
  }

  lemma StatOfIsExpected(user: AuthUser, profiles: Profiles, rc: map<string, nat>, messages: seq<Message>,
                         mailbox: Mailbox, conversations: Conversations, range: DateRange)
    requires ReplyCountFor(rc, user.id) == if user.id == "" then 0 else RepliesBy(messages, mailbox, conversations, range, user.id)
    ensures StatOf(Enhance(user, profiles), rc) == ExpectedStat(user, profiles, messages, mailbox, conversations, range)
  {
  }

  /** For a member, the counted messages by it are its staff replies. */
  lemma {:induction false} CountedByMember(messages: seq<Message>, mailbox: Mailbox, conversations: Conversations,
                                           memberIds: seq<string>, range: DateRange, id: string)
    requires id in memberIds
    ensures CountOf(CountedMessages(messages, mailbox, conversations, memberIds, range), Some(id))
         == RepliesBy(messages, mailbox, conversations, range, id)
  {
    if messages != [] {
      var prefix := messages[..|messages| - 1];
      var last := messages[|messages| - 1];
      CountedByMember(prefix, mailbox, conversations, memberIds, range, id);
      var before := CountedMessages(prefix, mailbox, conversations, memberIds, range);
      if Counted(last, mailbox, conversations, memberIds, range) {
        assert (before + [last])[..|before + [last]| - 1] == before;
      }
    }
  }

  /** Reply counts add up over concatenated message logs. */
  lemma {:induction false} RepliesByAppend(ms: seq<Message>, extra: seq<Message>, mailbox: Mailbox,
                                           conversations: Conversations, range: DateRange, id: string)
    ensures RepliesBy(ms + extra, mailbox, conversations, range, id)
         == RepliesBy(ms, mailbox, conversations, range, id) + RepliesBy(extra, mailbox, conversations, range, id)
    decreases |extra|
  {
    if extra == [] {
      assert ms + extra == ms;
    } else {
      var init := extra[..|extra| - 1];
      RepliesByAppend(ms, init, mailbox, conversations, range, id);
      assert (ms + extra)[..|ms + extra| - 1] == ms + init;
    }
  }

  /** Adding staff replies of the mailbox within the range, all written by
      `author`, raises that author's count by their number and leaves every
      other count as it was. */
  lemma {:induction false} AddedReplies(ms: seq<Message>, extra: seq<Message>, mailbox: Mailbox,
                                        conversations: Conversations, range: DateRange, author: string, id: string)
    requires forall m :: m in extra ==> m.userId == Some(author) && IsReply(m, mailbox, conversations, range)
    ensures RepliesBy(ms + extra, mailbox, conversations, range, id)
         == RepliesBy(ms, mailbox, conversations, range, id) + (if id == author then |extra| else 0)
  {
    RepliesByAppend(ms, extra, mailbox, conversations, range, id);
    RepliesOfAuthor(extra, mailbox, conversations, range, author, id);
  }

  lemma {:induction false} RepliesOfAuthor(extra: seq<Message>, mailbox: Mailbox, conversations: Conversations,
                                           range: DateRange, author: string, id: string)
    requires forall m :: m in extra ==> m.userId == Some(author) && IsReply(m, mailbox, conversations, range)
    ensures RepliesBy(extra, mailbox, conversations, range, id) == (if id == author then |extra| else 0)
  {
    if extra != [] {
      var init := extra[..|extra| - 1];
      assert extra[|extra| - 1] in extra;
      assert forall m :: m in init ==> m in extra;
      RepliesOfAuthor(init, mailbox, conversations, range, author, id);
    }
  }

  /** Without any staff reply of the mailbox within the range, every member
      has a count of 0. */
  lemma NoRepliesMeansZero(mailbox: Mailbox, range: DateRange, users: seq<AuthUser>, profiles: Profiles,
                           messages: seq<Message>, conversations: Conversations)
    requires forall m :: m in messages ==> !IsReply(m, mailbox, conversations, range)
    ensures forall x :: x in MemberStats(mailbox, range, users, profiles, messages, conversations) ==> x.replyCount == 0
  {
    var r := MemberStats(mailbox, range, users, profiles, messages, conversations);
    var expected := ExpectedStats(users, profiles, messages, mailbox, conversations, range);
    forall x | x in r ensures x.replyCount == 0 {
      assert x in multiset(expected);
      var i :| 0 <= i < |expected| && expected[i] == x;
      NoRepliesBy(messages, mailbox, conversations, range, users[i].id);
    }
  }

  lemma {:induction false} NoRepliesBy(messages: seq<Message>, mailbox: Mailbox, conversations: Conversations,
                                       range: DateRange, id: string)
    requires forall m :: m in messages ==> !IsReply(m, mailbox, conversations, range)
    ensures RepliesBy(messages, mailbox, conversations, range, id) == 0
  {
    if messages != [] {
      var init := messages[..|messages| - 1];
      assert messages[|messages| - 1] in messages;
      assert forall m :: m in init ==> m in messages;
      NoRepliesBy(init, mailbox, conversations, range, id);
    }
  }

  // ---------------------------------------------------------------------------
  // Totals

  /** The sum of the reply counts of `s`. */
  function SumCounts(s: seq<MemberStat>): nat {
    if s == [] then 0 else s[0].replyCount + SumCounts(s[1..])
  }

  /** The sum of the counts of the non-empty authors `ids` over `ms`. */
  function SumOver(ids: seq<string>, ms: seq<Message>): nat {
    if ids == [] then 0
    else (if ids[0] == "" then 0 else CountOf(ms, Some(ids[0]))) + SumOver(ids[1..], ms)
  }

  /** How many of the non-empty `ids` are the author `x`. */
  function Hits(ids: seq<string>, x: Option<string>): nat {
    if ids == [] then 0 else (if ids[0] != "" && Some(ids[0]) == x then 1 else 0) + Hits(ids[1..], x)
  }

  predicate DistinctIds(ids: seq<string>) {
    forall i, j :: 0 <= i < j < |ids| ==> ids[i] != ids[j]
  }

  lemma {:induction false} HitsAbsent(ids: seq<string>, v: string)
    requires v !in ids || v == ""
    ensures Hits(ids, Some(v)) == 0
  {
    if ids != [] {
      HitsAbsent(ids[1..], v);
    }
  }

  lemma {:induction false} HitsOnce(ids: seq<string>, v: string)
    requires DistinctIds(ids) && v in ids && v != ""
    ensures Hits(ids, Some(v)) == 1
  {
    if ids[0] == v {
      HitsAbsent(ids[1..], v);
    } else {
      HitsOnce(ids[1..], v);
    }
  }

  lemma {:induction false} SumOverNothing(ids: seq<string>)
    ensures SumOver(ids, []) == 0
  {
    if ids != [] {
      SumOverNothing(ids[1..]);
    }
  }

  lemma {:induction false} SumOverSnoc(ids: seq<string>, ms: seq<Message>)
    requires ms != []
    ensures SumOver(ids, ms) == SumOver(ids, ms[..|ms| - 1]) + Hits(ids, ms[|ms| - 1].userId)
  {
    if ids != [] {
      SumOverSnoc(ids[1..], ms);
    }
  }

  /** With distinct ids and every message written by one of them, the counts
      of the non-empty ids add up to the number of messages not written by
      the empty id. */
  lemma {:induction false} SumOverAll(ids: seq<string>, ms: seq<Message>)
    requires DistinctIds(ids)
    requires forall m :: m in ms ==> m.userId.Some? && m.userId.value in ids
    ensures SumOver(ids, ms) + CountOf(ms, Some("")) == |ms|
  {
    if ms == [] {
      SumOverNothing(ids);
    } else {
      var last := ms[|ms| - 1];
      assert last in ms;
      var prefix := ms[..|ms| - 1];
      assert forall m :: m in prefix ==> m in ms;
      SumOverSnoc(ids, ms);
      SumOverAll(ids, prefix);
      if last.userId == Some("") {
        HitsAbsent(ids, "");
      } else {
        HitsOnce(ids, last.userId.value);
      }
      assert |prefix| == |ms| - 1;
    }
  }

  /** The merged counts add up to the counts of the non-empty ids; the merge
      gives an empty id 0. */
  lemma {:induction false} SumMerge(rows: seq<EnhancedUser>, rc: map<string, nat>, ms: seq<Message>)
    requires forall id :: ReplyCountFor(rc, id) == if id == "" then 0 else CountOf(ms, Some(id))
    ensures SumCounts(Merge(rows, rc)) == SumOver(RowIds(rows), ms)
  {
    if rows != [] {
      SumMerge(rows[1..], rc, ms);
    }
  }

  lemma {:induction false} SumInsert(x: MemberStat, s: seq<MemberStat>)
    requires SortedDesc(s)
    ensures SumCounts(Insert(x, s)) == x.replyCount + SumCounts(s)
  {
    if s != [] && x.replyCount < s[0].replyCount {
      SumInsert(x, s[1..]);
    }
  }

  lemma {:induction false} SumSorted(s: seq<MemberStat>)
    ensures SumCounts(SortByReplyCount(s)) == SumCounts(s)
  {
    if s != [] {
      SumSorted(s[1..]);
      SumInsert(s[0], SortByReplyCount(s[1..]));
    }
  }

  /** When user ids are distinct (the primary key of `auth.users`), the reply
      counts add up to the number of counted messages, less those by the
      empty id: every staff reply of the mailbox within the range whose author
      is a user is counted exactly once, except that the reduce drops the
      count of an empty id. */
  lemma TotalReplies(mailbox: Mailbox, range: DateRange, users: seq<AuthUser>, profiles: Profiles,
                     messages: seq<Message>, conversations: Conversations)
    requires forall i, j :: 0 <= i < j < |users| ==> users[i].id != users[j].id
    ensures var ids := RowIds(LeftJoin(users, profiles));
      var counted := CountedMessages(messages, mailbox, conversations, ids, range);
      SumCounts(MemberStats(mailbox, range, users, profiles, messages, conversations)) + CountOf(counted, Some(""))
        == |counted|
  {
    var rows := LeftJoin(users, profiles);
    var ids := RowIds(rows);
    var counted := CountedMessages(messages, mailbox, conversations, ids, range);
    var rc := ReplyCounts(Aggregate(counted));
    forall id ensures ReplyCountFor(rc, id) == if id == "" then 0 else CountOf(counted, Some(id)) {
      AggregateThenReduce(counted, id);
    }
    SumSorted(Merge(rows, rc));
    SumMerge(rows, rc, counted);
    SumOverAll(ids, counted);
  }
}
