/**
 * What every server implementation computes, stated once: the incremental
 * fetch of `GET /message`, the unread counts of `GET /fetch`, the paging of
 * `GET /history/:channel_id`, and the JSON rows they return. The lemmas here
 * tie these operations to each other; the per-language modules prove that
 * their handlers compute exactly these functions.
 */
module Engine {
  import opened Base
  import opened Text
  import opened Store

  /** `GET /message` returns at most this many messages. */
  const FetchLimit: nat := 100
  /** `GET /history` pages hold this many messages. */
  const PageSize: nat := 20

  datatype UserView = UserView(name: string, displayName: string, avatarIcon: string)

  /** One element of a message list in a JSON response (the date is left out). */
  datatype JsonMessage = JsonMessage(id: int, user: Option<UserView>, content: string)

  datatype UnreadInfo = UnreadInfo(channelId: int, unread: nat)

  /** What the history page shows: its messages, its number and the last page number. */
  datatype HistoryView = HistoryView(messages: seq<JsonMessage>, page: int, maxPage: int)

  /** An uploaded avatar file: its client-side file name and its bytes. */
  datatype Upload = Upload(filename: string, data: seq<int>)

  /** What a handler answers: a body, 204, a redirect (which may log a user in), or an error status. */
  datatype Response<T> =
    | Ok(body: T)
    | NoContent
    | Redirect(location: string, login: Option<int>)
    | Error(code: int)

  // ---------------------------------------------------------------------------
  // GET /message
  // ---------------------------------------------------------------------------

  /** Messages of `ch` newer than `after`: the newest `FetchLimit` of them, oldest first. */
  function Fetch(ms: seq<Message>, ch: int, after: int): (r: seq<Message>)
    ensures |r| == Min(CountAfter(ms, ch, after), FetchLimit)
    ensures forall m :: m in r ==> m in ms && m.channel == ch && m.id > after
  {
    var l := Filter(ms, ch, after);
    assert forall m :: m in LastN(l, FetchLimit) ==> m in l by {
      forall m | m in LastN(l, FetchLimit) ensures m in l { LastNIn(l, FetchLimit, m); }
    }
    LastN(l, FetchLimit)
  }

  /**
   * The fetch for a `channel_id = ?` parameter: `ch` is the integer the
   * parameter equals, and a parameter equal to no integer matches no row.
   */
  function FetchWhere(ms: seq<Message>, ch: Option<int>, after: int): seq<Message> {
    if ch.Some? then Fetch(ms, ch.value, after) else []
  }

  /** The last rows of an id-ordered list are id-ordered. */
  lemma LastNIncreasing(l: seq<Message>, n: nat)
    requires IdsIncreasing(l)
    ensures IdsIncreasing(LastN(l, n))
  {
    var f := LastN(l, n);
    forall i, j | 0 <= i < j < |f|
      ensures f[i].id < f[j].id
    {
      assert f[i] == l[|l| - |f| + i] && f[j] == l[|l| - |f| + j];
    }
  }

  /** A row of an id-ordered list that is not among its last rows is older than each of them. */
  lemma DroppedRowsAreOlder(l: seq<Message>, n: nat, m: Message, k: nat)
    requires IdsIncreasing(l)
    requires m in l && m !in LastN(l, n) && k < |LastN(l, n)|
    ensures m.id < LastN(l, n)[k].id
  {
    var f := LastN(l, n);
    var j :| 0 <= j < |l| && l[j] == m;
    assert j < |l| - |f|;
    assert f[k] == l[|l| - |f| + k];
  }

  /** The fetch is bounded, in order, confined to the channel, and skips no newer message. */
  lemma FetchIsNewest(ms: seq<Message>, ch: int, after: int)
    requires IdsIncreasing(ms)
    ensures var f := Fetch(ms, ch, after);
      && |f| == Min(CountAfter(ms, ch, after), FetchLimit)
      && IdsIncreasing(f)
      && (forall m :: m in f ==> m in ms && m.channel == ch && m.id > after)
      && (forall m, k :: m in Filter(ms, ch, after) && m !in f && 0 <= k < |f| ==> m.id < f[k].id)
  {
    var l := Filter(ms, ch, after);
    var f := Fetch(ms, ch, after);
    FilterIncreasing(ms, ch, after);
    LastNIncreasing(l, FetchLimit);
    forall m | m in f
      ensures m in l
    {
      LastNIn(l, FetchLimit, m);
    }
    forall m, k | m in l && m !in f && 0 <= k < |f|
      ensures m.id < f[k].id
    {
      DroppedRowsAreOlder(l, FetchLimit, m, k);
    }
  }

  /** The id of the newest row (the rows are not empty). */
  function MaxId(rows: seq<Message>): (r: int)
    requires rows != []
    ensures exists k :: 0 <= k < |rows| && rows[k].id == r
    ensures forall k :: 0 <= k < |rows| ==> rows[k].id <= r
  {
    if |rows| == 1 then rows[0].id
    else
      var t := MaxId(rows[1..]);
      assert forall k :: 1 <= k < |rows| ==> rows[k] == rows[1..][k - 1];
      Max(rows[0].id, t)
  }

  /** What `GET /message` stores as the read cursor in the four ports: the newest id, or 0. */
  function CursorAfter(rows: seq<Message>): (c: int)
    ensures rows == [] ==> c == 0
    ensures rows != [] ==> exists k :: 0 <= k < |rows| && rows[k].id == c
    ensures forall k :: 0 <= k < |rows| ==> rows[k].id <= c
  {
    if rows == [] then 0 else MaxId(rows)
  }

  /** The first row of the newest-first query is the newest message, the cursor the ports store. */
  lemma NewestFirstIsCursor(ms: seq<Message>, ch: int, after: int)
    requires IdsIncreasing(ms)
    requires Fetch(ms, ch, after) != []
    ensures NewestDesc(ms, ch, after, FetchLimit) == Reverse(Fetch(ms, ch, after))
    ensures NewestDesc(ms, ch, after, FetchLimit)[0].id == MaxId(Fetch(ms, ch, after))
  {
    var f := Fetch(ms, ch, after);
    FilterIncreasing(ms, ch, after);
    LastNIncreasing(Filter(ms, ch, after), FetchLimit);
    MaxIdIsLast(f);
    assert Reverse(f)[0] == f[|f| - 1];
  }

  /** The newest row of an id-ordered list is its last. */
  lemma MaxIdIsLast(rows: seq<Message>)
    requires rows != [] && IdsIncreasing(rows)
    ensures MaxId(rows) == rows[|rows| - 1].id
  {
    var k :| 0 <= k < |rows| && rows[k].id == MaxId(rows);
    assert k == |rows| - 1 || rows[k].id < rows[|rows| - 1].id;
  }

  /** No message of the channel is newer than the last row of the query after `after`. */
  lemma LastFilteredIsNewest(ms: seq<Message>, ch: int, after: int)
    requires IdsIncreasing(Filter(ms, ch, after)) && Filter(ms, ch, after) != []
    ensures var l := Filter(ms, ch, after);
      forall m :: m in ms && m.channel == ch ==> m.id <= l[|l| - 1].id
  {
    var l := Filter(ms, ch, after);
    assert l[|l| - 1] in l;
    forall m | m in ms && m.channel == ch
      ensures m.id <= l[|l| - 1].id
    {
      if m.id > after {
        var j :| 0 <= j < |l| && l[j] == m;
        assert j == |l| - 1 || l[j].id < l[|l| - 1].id;
      }
    }
  }

  /** After a non-empty fetch the cursor is the newest message of the channel: nothing is unread. */
  lemma FetchCatchesUp(ms: seq<Message>, ch: int, after: int)
    requires IdsIncreasing(ms)
    requires Fetch(ms, ch, after) != []
    ensures CountAfter(ms, ch, MaxId(Fetch(ms, ch, after))) == 0
  {
    FilterIncreasing(ms, ch, after);
    FetchNewestIsLastFiltered(ms, ch, after);
    LastFilteredIsNewest(ms, ch, after);
    NothingAfter(ms, ch, MaxId(Fetch(ms, ch, after)));
  }

  /** The newest row of a non-empty fetch is the last row the query selects. */
  lemma FetchNewestIsLastFiltered(ms: seq<Message>, ch: int, after: int)
    requires IdsIncreasing(Filter(ms, ch, after))
    requires Fetch(ms, ch, after) != []
    ensures var l := Filter(ms, ch, after); l != [] && MaxId(Fetch(ms, ch, after)) == l[|l| - 1].id
  {
    FetchIsLastN(ms, ch, after);
    LastNNewest(Filter(ms, ch, after), FetchLimit);
  }

  /** A fetch is the last FetchLimit rows of the query. */
  lemma FetchIsLastN(ms: seq<Message>, ch: int, after: int)
    ensures Fetch(ms, ch, after) == LastN(Filter(ms, ch, after), FetchLimit)
  {
  }

  /** The newest of the last rows of an id-ordered list is its last row. */
  lemma LastNNewest(l: seq<Message>, n: nat)
    requires IdsIncreasing(l) && LastN(l, n) != []
    ensures l != [] && MaxId(LastN(l, n)) == l[|l| - 1].id
  {
    LastNIncreasing(l, n);
    MaxIdIsLast(LastN(l, n));
    LastNLast(l, n);
  }

  lemma NothingAfter(ms: seq<Message>, ch: int, after: int)
    requires forall m :: m in ms && m.channel == ch ==> m.id <= after
    ensures CountAfter(ms, ch, after) == 0
  {
    var r := Filter(ms, ch, after);
    if r != [] {
      assert r[0] in r;
    }
  }

  /** Once the cursor is at the newest message, a new post is exactly what the next fetch returns. */
  lemma FetchAfterPost(ms: seq<Message>, m: Message, after: int)
    requires IdsIncreasing(ms)
    requires CountAfter(ms, m.channel, after) == 0
    requires m.id > after
    ensures Fetch(ms + [m], m.channel, after) == [m]
  {
    assert (ms + [m])[..|ms|] == ms;
  }

  /** The newest id does not depend on the order of the rows. */
  lemma MaxIdReverse(rows: seq<Message>)
    requires rows != []
    ensures MaxId(Reverse(rows)) == MaxId(rows)
  {
    var d := Reverse(rows);
    var i :| 0 <= i < |d| && d[i].id == MaxId(d);
    var j :| 0 <= j < |rows| && rows[j].id == MaxId(rows);
    assert d[i] == rows[|rows| - 1 - i];
    assert d[|rows| - 1 - j] == rows[j];
  }

  /**
   * The cursor the ports compute from the newest-first rows is the one of the
   * fetch, and it is a valid message id (or 0) of the store.
   */
  lemma CursorOfNewestDesc(ms: seq<Message>, ch: int, after: int, next: int, haveread: map<(int, int), int>)
    requires MessagesValid(ms, next, haveread)
    ensures CursorAfter(NewestDesc(ms, ch, after, FetchLimit)) == CursorAfter(Fetch(ms, ch, after))
    ensures 0 <= CursorAfter(Fetch(ms, ch, after)) < next
  {
    var f := Fetch(ms, ch, after);
    if f != [] {
      MaxIdReverse(f);
      var k :| 0 <= k < |f| && f[k].id == MaxId(f);
      LastNIn(Filter(ms, ch, after), FetchLimit, f[k]);
      var i :| 0 <= i < |ms| && ms[i] == f[k];
    }
  }

  // ---------------------------------------------------------------------------
  // GET /fetch
  // ---------------------------------------------------------------------------

  /** The stored read cursor of `user` in `ch`, if there is a haveread row. */
  function Cursor(haveread: map<(int, int), int>, user: int, ch: int): (c: Option<int>)
    ensures c.Some? <==> (user, ch) in haveread
    ensures c.Some? ==> c.value == haveread[(user, ch)]
  {
    if (user, ch) in haveread then Some(haveread[(user, ch)]) else None
  }

  /** The cursor `WHERE user_id = ?` finds for a parameter equal to `user`, if to any integer. */
  function CursorWhere(haveread: map<(int, int), int>, user: Option<int>, ch: int): Option<int> {
    if user.Some? then Cursor(haveread, user.value, ch) else None
  }

  /** Unread count: messages after the cursor, or the whole channel without one. */
  function Unread(ms: seq<Message>, cursor: Option<int>, ch: int): (n: nat)
    ensures n <= |ms|
    ensures n == 0 <==> forall m :: m in ms && m.channel == ch ==> cursor.Some? && m.id <= cursor.value
  {
    match cursor
    case None =>
      var l := InChannel(ms, ch);
      assert l != [] ==> l[0] in l;
      |l|
    case Some(id) =>
      var l := Filter(ms, ch, id);
      assert l != [] ==> l[0] in l;
      |l|
  }

  /** A post adds one unread message in its own channel and none elsewhere. */
  lemma {:induction false} UnreadAfterPost(ms: seq<Message>, m: Message, cursor: Option<int>, ch: int)
    requires cursor.Some? ==> cursor.value < m.id
    ensures Unread(ms + [m], cursor, ch) == Unread(ms, cursor, ch) + (if ch == m.channel then 1 else 0)
  {
    assert (ms + [m])[..|ms|] == ms;
  }

  /** A cursor of 0 counts the whole channel: an upsert of 0 makes everything unread again. */
  lemma ZeroCursorCountsAll(ms: seq<Message>, ch: int)
    requires PositiveIds(ms)
    ensures Unread(ms, Some(0), ch) == Unread(ms, None, ch) == CountChannel(ms, ch)
  {
    FilterZeroIsInChannel(ms, ch);
  }

  /** `SELECT id FROM channel`. */
  function ChannelIds(chs: seq<Channel>): (r: seq<int>)
    ensures |r| == |chs| && forall i :: 0 <= i < |chs| ==> r[i] == chs[i].id
  {
    seq(|chs|, i requires 0 <= i < |chs| => chs[i].id)
  }

  /**
   * The loop of `GET /fetch` in the Node, Python, PHP and Ruby servers: for each
   * channel, look up the haveread row and count what is after it.
   */
  method UnreadCounts(ms: seq<Message>, haveread: map<(int, int), int>, user: int, chs: seq<int>)
    returns (res: seq<UnreadInfo>)
    ensures |res| == |chs|
    ensures forall i :: 0 <= i < |chs| ==>
      res[i] == UnreadInfo(chs[i], Unread(ms, Cursor(haveread, user, chs[i]), chs[i]))
  {
    res := [];
    var i := 0;
    while i < |chs|
      invariant 0 <= i <= |chs|
      invariant |res| == i
      invariant forall k :: 0 <= k < i ==>
        res[k] == UnreadInfo(chs[k], Unread(ms, Cursor(haveread, user, chs[k]), chs[k]))
    {
      var ch := chs[i];
      var cnt: nat;
      if (user, ch) in haveread {
        cnt := CountAfter(ms, ch, haveread[(user, ch)]);
      } else {
        cnt := CountChannel(ms, ch);
      }
      res := res + [UnreadInfo(ch, cnt)];
      i := i + 1;
    }
  }

  // ---------------------------------------------------------------------------
  // GET /history/:channel_id
  // ---------------------------------------------------------------------------

  /** Number of pages needed for `cnt` messages: the ceiling of cnt / PageSize. */
  function PagesFor(cnt: nat): (p: nat)
    ensures p * PageSize >= cnt
    ensures cnt > 0 ==> (p - 1) * PageSize < cnt
    ensures cnt == 0 ==> p == 0
  {
    if cnt % PageSize == 0 then cnt / PageSize else cnt / PageSize + 1
  }

  /** The last page number the history view accepts: at least 1, even for an empty channel. */
  function MaxPage(cnt: nat): (p: nat)
    ensures p >= 1
  {
    Max(PagesFor(cnt), 1)
  }

  /** A requested page number that exists in a channel of `cnt` messages. */
  predicate PageInRange(p: Option<int>, cnt: nat)
    ensures PageInRange(p, cnt) <==> p.Some? && p.value >= 1 && (p.value == 1 || (p.value - 1) * PageSize < cnt)
  {
    if p.None? then false
    else if p.value < 2 then p.value == 1
    else
      PageStartsInChannel(p.value, cnt);
      p.value <= MaxPage(cnt)
  }

  /** A page after the first is within maxPage exactly when its first message exists. */
  lemma PageStartsInChannel(v: int, cnt: nat)
    requires v >= 2
    ensures v <= MaxPage(cnt) <==> (v - 1) * PageSize < cnt
  {
    var p := PagesFor(cnt);
    if v <= MaxPage(cnt) {
      assert cnt > 0 && v <= p;
      assert (v - 1) * PageSize <= (p - 1) * PageSize;
    }
    if (v - 1) * PageSize < cnt {
      assert (v - 1) * PageSize < p * PageSize;
    }
  }

  /** Page `page` of the channel, oldest first: page 1 holds the newest messages. */
  function HistoryPage(ms: seq<Message>, ch: int, page: nat): (r: seq<Message>)
    requires page >= 1
    ensures |r| <= PageSize
    ensures forall m :: m in r ==> m in ms && m.channel == ch
  {
    var d := PageDesc(ms, ch, PageSize, (page - 1) * PageSize);
    assert forall m :: m in Reverse(d) ==> m in d by {
      forall m | m in Reverse(d) ensures m in d {
        var k :| 0 <= k < |d| && Reverse(d)[k] == m;
        assert d[|d| - 1 - k] == m;
      }
    }
    Reverse(d)
  }

  /** `COUNT(*) ... WHERE channel_id = ?` for a parameter equal to `ch`, if to any integer. */
  function CountWhere(ms: seq<Message>, ch: Option<int>): nat {
    if ch.Some? then CountChannel(ms, ch.value) else 0
  }

  /** The history page for a parameter equal to `ch`, if to any integer. */
  function HistoryPageWhere(ms: seq<Message>, ch: Option<int>, page: nat): seq<Message>
    requires page >= 1
  {
    if ch.Some? then HistoryPage(ms, ch.value, page) else []
  }

  /** A page is a contiguous run of the channel, counted back from its newest message. */
  lemma HistoryPageIsSlice(ms: seq<Message>, ch: int, page: nat)
    requires page >= 1
    ensures var a := InChannel(ms, ch); var n := |a|;
      HistoryPage(ms, ch, page) == a[n - Min(page * PageSize, n)..n - Min((page - 1) * PageSize, n)]
  {
    var a := InChannel(ms, ch);
    ReverseSliceOfReverse(a, Min((page - 1) * PageSize, |a|), Min(page * PageSize, |a|));
  }

  /** Pages `page`, `page - 1`, ..., 1 laid end to end: chronological order. */
  function PagesThrough(ms: seq<Message>, ch: int, page: nat): seq<Message> {
    if page == 0 then [] else HistoryPage(ms, ch, page) + PagesThrough(ms, ch, page - 1)
  }

  lemma {:induction false} PagesThroughIsSuffix(ms: seq<Message>, ch: int, page: nat)
    ensures var a := InChannel(ms, ch);
      PagesThrough(ms, ch, page) == a[|a| - Min(page * PageSize, |a|)..]
  {
    if page > 0 {
      PagesThroughIsSuffix(ms, ch, page - 1);
      HistoryPageIsSlice(ms, ch, page);
      PageThenRest(InChannel(ms, ch), HistoryPage(ms, ch, page), PagesThrough(ms, ch, page - 1), page);
    }
  }

  /** A page followed by the suffix after it is the suffix that starts with the page. */
  lemma PageThenRest(a: seq<Message>, pg: seq<Message>, rest: seq<Message>, page: nat)
    requires page >= 1
    requires pg == a[|a| - Min(page * PageSize, |a|)..|a| - Min((page - 1) * PageSize, |a|)]
    requires rest == a[|a| - Min((page - 1) * PageSize, |a|)..]
    ensures pg + rest == a[|a| - Min(page * PageSize, |a|)..]
  {
    AdjacentSlices(a, |a| - Min(page * PageSize, |a|), |a| - Min((page - 1) * PageSize, |a|));
  }

  /** Two adjacent slices that run to the end make one. */
  lemma AdjacentSlices<T>(a: seq<T>, i: nat, j: nat)
    requires i <= j <= |a|
    ensures a[i..j] + a[j..] == a[i..]
  {
  }

  /** Reading every page from the last to the first shows the whole channel exactly once, in order. */
  lemma HistoryPagesCoverChannel(ms: seq<Message>, ch: int)
    ensures PagesThrough(ms, ch, MaxPage(CountChannel(ms, ch))) == InChannel(ms, ch)
  {
    PagesThroughIsSuffix(ms, ch, MaxPage(CountChannel(ms, ch)));
  }

  /** Every page but the last is full; the last holds 1 to PageSize messages, or none in an empty channel. */
  lemma HistoryPageSize(ms: seq<Message>, ch: int, page: nat)
    requires 1 <= page <= MaxPage(CountChannel(ms, ch))
    ensures var cnt := CountChannel(ms, ch); var n := |HistoryPage(ms, ch, page)|;
      && (page < MaxPage(cnt) ==> n == PageSize)
      && (page == MaxPage(cnt) && cnt > 0 ==> 1 <= n <= PageSize)
      && (cnt == 0 ==> n == 0)
  {
    HistoryPageIsSlice(ms, ch, page);
  }

  // ---------------------------------------------------------------------------
  // JSON rows
  // ---------------------------------------------------------------------------

  function ViewOf(u: User): UserView {
    UserView(u.name, u.displayName, u.avatarIcon)
  }

  /** A message row with its author looked up (`null` when the author row is missing). */
  function Jsonify(users: seq<User>, m: Message): (j: JsonMessage)
    ensures j.id == m.id && j.content == m.content
    ensures j.user.Some? <==> UserById(users, m.user).Some?
  {
    JsonMessage(m.id, match UserById(users, m.user)
      case None => None
      case Some(u) => Some(ViewOf(u)), m.content)
  }

  function Render(users: seq<User>, rows: seq<Message>): (r: seq<JsonMessage>)
    ensures |r| == |rows|
    ensures forall i :: 0 <= i < |rows| ==> r[i] == Jsonify(users, rows[i])
  {
    seq(|rows|, i requires 0 <= i < |rows| => Jsonify(users, rows[i]))
  }

  /**
   * The response loop of the Node, Python and PHP servers: one JSON row per
   * fetched row (newest first), then the list reversed to oldest first.
   */
  method RenderNewestFirst(users: seq<User>, rowsDesc: seq<Message>) returns (out: seq<JsonMessage>)
    ensures out == Render(users, Reverse(rowsDesc))
  {
    var acc: seq<JsonMessage> := [];
    var i := 0;
    while i < |rowsDesc|
      invariant 0 <= i <= |rowsDesc|
      invariant acc == Render(users, rowsDesc[..i])
    {
      acc := acc + [Jsonify(users, rowsDesc[i])];
      i := i + 1;
    }
    assert rowsDesc[..i] == rowsDesc;
    out := Reverse(acc);
  }

  /**
   * The end of the Node, Python and PHP history handlers: the page's rows
   * read newest first with the offset, rendered oldest first.
   */
  method HistoryResponse(users: seq<User>, ms: seq<Message>, ch: int, page: nat, maxPage: int) returns (r: Response<HistoryView>)
    requires page >= 1
    ensures r == Ok(HistoryView(Render(users, HistoryPage(ms, ch, page)), page, maxPage))
  {
    var rows := PageDesc(ms, ch, PageSize, (page - 1) * PageSize);
    var messages := RenderNewestFirst(users, rows);
    r := Ok(HistoryView(messages, page, maxPage));
  }

  /** The JSON ids of a fetch are the message ids in increasing order. */
  lemma RenderedFetchAscending(users: seq<User>, ms: seq<Message>, ch: int, after: int)
    requires IdsIncreasing(ms)
    ensures var r := Render(users, Fetch(ms, ch, after));
      forall i, j :: 0 <= i < j < |r| ==> r[i].id < r[j].id
  {
    FetchIsNewest(ms, ch, after);
  }

  // ---------------------------------------------------------------------------
  // The channel list beside every page
  // ---------------------------------------------------------------------------

  predicate UniqueChannelIds(chs: seq<Channel>) {
    forall i, j :: 0 <= i < j < |chs| ==> chs[i].id != chs[j].id
  }

  /** The description the Node loop keeps: that of the last channel with id `focus`. */
  function LastDescription(chs: seq<Channel>, focus: int): (d: string)
    ensures (forall c :: c in chs ==> c.id != focus) ==> d == ""
  {
    if chs == [] then ""
    else if chs[|chs| - 1].id == focus then chs[|chs| - 1].description
    else LastDescription(chs[..|chs| - 1], focus)
  }

  /** The description the Python and PHP loops keep: that of the first match (they break). */
  function FirstDescription(chs: seq<Channel>, focus: int): (d: string)
    ensures (forall c :: c in chs ==> c.id != focus) ==> d == ""
  {
    if chs == [] then ""
    else if chs[0].id == focus then chs[0].description
    else FirstDescription(chs[1..], focus)
  }

  /** With unique channel ids, both loops find the description of the one matching channel. */
  lemma {:induction false} DescriptionOfChannel(chs: seq<Channel>, focus: int, k: nat)
    requires UniqueChannelIds(chs)
    requires k < |chs| && chs[k].id == focus
    ensures LastDescription(chs, focus) == chs[k].description
    ensures FirstDescription(chs, focus) == chs[k].description
  {
    LastDescriptionOf(chs, focus, k);
    FirstDescriptionOf(chs, focus, k);
  }

  lemma {:induction false} LastDescriptionOf(chs: seq<Channel>, focus: int, k: nat)
    requires UniqueChannelIds(chs)
    requires k < |chs| && chs[k].id == focus
    ensures LastDescription(chs, focus) == chs[k].description
  {
    if k < |chs| - 1 {
      var p := chs[..|chs| - 1];
      assert p[k] == chs[k];
      LastDescriptionOf(p, focus, k);
    }
  }

  lemma {:induction false} FirstDescriptionOf(chs: seq<Channel>, focus: int, k: nat)
    requires UniqueChannelIds(chs)
    requires k < |chs| && chs[k].id == focus
    ensures FirstDescription(chs, focus) == chs[k].description
  {
    if k > 0 {
      var t := chs[1..];
      assert t[k - 1] == chs[k];
      FirstDescriptionOf(t, focus, k - 1);
    }
  }

  // ---------------------------------------------------------------------------
  // POST /profile
  // ---------------------------------------------------------------------------

  /** The user rows after `UPDATE user SET avatar_icon` and/or `SET display_name` for `id`. */
  function UpdatedProfile(users: seq<User>, id: int, icon: Option<string>, displayName: Option<string>): (r: seq<User>)
    ensures |r| == |users|
    ensures forall i :: 0 <= i < |users| ==> users[i].id != id ==> r[i] == users[i]
    ensures forall i :: 0 <= i < |users| ==> users[i].id == id ==>
      && r[i].id == id && r[i].name == users[i].name
      && r[i].salt == users[i].salt && r[i].password == users[i].password
      && r[i].avatarIcon == (if icon.Some? then icon.value else users[i].avatarIcon)
      && r[i].displayName == (if displayName.Some? then displayName.value else users[i].displayName)
  {
    seq(|users|, i requires 0 <= i < |users| =>
      if users[i].id != id then users[i]
      else users[i].(avatarIcon := if icon.Some? then icon.value else users[i].avatarIcon,
                     displayName := if displayName.Some? then displayName.value else users[i].displayName))
  }

  /** A display-name field that only counts when it is not empty. */
  function NonEmpty(s: string): (r: Option<string>)
    ensures r.Some? <==> s != ""
    ensures r.Some? ==> r.value == s
  {
    if s == "" then None else Some(s)
  }

  /**
   * The writes at the end of every postProfile: the image row (when `data` is
   * given), the new icon name, the new display name; nothing else changes.
   */
  method ApplyProfile(db: Db, id: int, icon: Option<string>, data: Option<seq<int>>, displayName: Option<string>)
    requires db.Valid()
    requires data.Some? ==> icon.Some?
    modifies db
    ensures db.Valid()
    ensures db.users == UpdatedProfile(old(db.users), id, icon, displayName)
    ensures db.images == old(db.images) + (if data.Some? then [Image(old(db.nextImageId), icon.value, data.value)] else [])
    ensures db.messages == old(db.messages) && db.haveread == old(db.haveread) && db.channels == old(db.channels)
    ensures db.nextImageId == old(db.nextImageId) + (if data.Some? then 1 else 0)
    ensures db.nextUserId == old(db.nextUserId) && db.nextChannelId == old(db.nextChannelId)
    ensures db.nextMessageId == old(db.nextMessageId)
  {
    if data.Some? {
      db.AddImage(icon.value, data.value);
    }
    if icon.Some? {
      db.SetAvatarIcon(id, icon.value);
    }
    if displayName.Some? {
      db.SetDisplayName(id, displayName.value);
    }
  }

  // ---------------------------------------------------------------------------
  // GET /icons/:file_name
  // ---------------------------------------------------------------------------

  /** ext2mime of the Node, Python and Ruby servers: the four image types, "" otherwise. */
  function MimeOfExt(ext: string): (mime: string)
    ensures mime != "" <==> ext in {".jpg", ".jpeg", ".png", ".gif"}
    ensures mime == "image/jpeg" <==> ext == ".jpg" || ext == ".jpeg"
  {
    if ext == ".jpg" || ext == ".jpeg" then "image/jpeg"
    else if ext == ".png" then "image/png"
    else if ext == ".gif" then "image/gif"
    else ""
  }
}
