/**
 * The benchmark's checks on what the server answers (bench/src/bench/scenario.go):
 * the message list of GET /message, the pagination strip and the pages of
 * GET /history, the unread counts of GET /fetch, and the status of a redirect.
 * Each check is set beside the server model it judges, with a lemma that a
 * server behaving as modelled passes it.
 */
module Scenario {
  import opened Base
  import opened Text
  import opened Structure
  import Store
  import Engine

  /** What a check returns: nothing, or an error that may be fatal. */
  datatype Outcome = Pass | Fail(fatal: bool)

  // ---------------------------------------------------------------------------
  // GET /message
  // ---------------------------------------------------------------------------

  function IdsOf(msgs: seq<JsonMessage>): (ids: seq<int>)
    ensures |ids| == |msgs| && forall i :: 0 <= i < |msgs| ==> ids[i] == msgs[i].id
  {
    seq(|msgs|, i requires 0 <= i < |msgs| => msgs[i].id)
  }

  predicate StrictlyIncreasing(ids: seq<int>) {
    forall i, j :: 0 <= i < j < |ids| ==> ids[i] < ids[j]
  }

  /** The order part of validateJsonMessage: at most 100 ids, all past the cursor, strictly increasing. */
  predicate IdsAcceptable(lastMessageId: int, ids: seq<int>) {
    ids == [] || (|ids| <= 100 && lastMessageId < ids[0] && StrictlyIncreasing(ids))
  }

  /** What validateJsonMessage accepts: an empty list, or ordered ids and every message known. */
  predicate JsonMessagesAcceptable(msgMap: map<int, map<string, MessageInfo>>, chanId: int, lastMessageId: int, msgs: seq<JsonMessage>) {
    msgs == [] || (IdsAcceptable(lastMessageId, IdsOf(msgs)) && forall m :: m in msgs ==> JsonMessageValid(msgMap, chanId, m))
  }

  /**
   * validateJsonMessage: an empty list passes; more than 100 messages, an
   * id not past the cursor, ids out of order or an unknown message is fatal.
   */
  method ValidateJsonMessages(msgMap: map<int, map<string, MessageInfo>>, chanId: int, lastMessageId: int, msgs: seq<JsonMessage>)
    returns (r: Outcome)
    ensures r == Pass <==> JsonMessagesAcceptable(msgMap, chanId, lastMessageId, msgs)
    ensures r != Pass ==> r.fatal
  {
    if |msgs| == 0 {
      return Pass;
    }
    if 100 < |msgs| {
      return Fail(true);
    }
    if lastMessageId >= msgs[0].id {
      return Fail(true);
    }
    var ordered := CheckOrder(IdsOf(msgs));
    if !ordered {
      return Fail(true);
    }
    var known := AllKnown(msgMap, chanId, msgs);
    if !known {
      return Fail(true);
    }
    return Pass;
  }

  /** The loop over neighbouring ids: each must be below the next. */
  method CheckOrder(ids: seq<int>) returns (ok: bool)
    ensures ok <==> StrictlyIncreasing(ids)
  {
    if |ids| == 0 {
      return true;
    }
    for i := 0 to |ids| - 1
      invariant forall a, b :: 0 <= a < b <= i ==> ids[a] < ids[b]
    {
      if ids[i] >= ids[i + 1] {
        return false;
      }
    }
    return true;
  }

  /** The loop validating each message against the register. */
  method AllKnown(msgMap: map<int, map<string, MessageInfo>>, chanId: int, msgs: seq<JsonMessage>) returns (ok: bool)
    ensures ok <==> forall m :: m in msgs ==> JsonMessageValid(msgMap, chanId, m)
  {
    for k := 0 to |msgs|
      invariant forall m :: m in msgs[..k] ==> JsonMessageValid(msgMap, chanId, m)
    {
      if !JsonMessageValid(msgMap, chanId, msgs[k]) {
        assert msgs[k] in msgs;
        return false;
      }
      assert msgs[..k + 1] == msgs[..k] + [msgs[k]];
    }
    assert msgs[..|msgs|] == msgs;
    return true;
  }

  /** The client's cursor after an accepted list: the last id, or unchanged when the list is empty. */
  function NextLastMessageId(lastMessageId: int, msgs: seq<JsonMessage>): int {
    if msgs == [] then lastMessageId else msgs[|msgs| - 1].id
  }

  /** After an accepted list the cursor has moved past every id in it, and never back. */
  lemma CursorPassesAcceptedIds(lastMessageId: int, msgs: seq<JsonMessage>)
    requires IdsAcceptable(lastMessageId, IdsOf(msgs))
    ensures NextLastMessageId(lastMessageId, msgs) >= lastMessageId
    ensures msgs != [] ==> NextLastMessageId(lastMessageId, msgs) > lastMessageId
    ensures forall m :: m in msgs ==> m.id <= NextLastMessageId(lastMessageId, msgs)
  {
    var ids := IdsOf(msgs);
    if msgs != [] {
      var n := |msgs| - 1;
      assert ids[0] <= ids[n] by {
        if n > 0 { assert ids[0] < ids[n]; }
      }
      forall m | m in msgs
        ensures m.id <= msgs[n].id
      {
        var k :| 0 <= k < |msgs| && msgs[k] == m;
        if k < n { assert ids[k] < ids[n]; }
      }
    }
  }

  function RowIds(rows: seq<Store.Message>): (ids: seq<int>)
    ensures |ids| == |rows| && forall i :: 0 <= i < |rows| ==> ids[i] == rows[i].id
  {
    seq(|rows|, i requires 0 <= i < |rows| => rows[i].id)
  }

  /** A server that answers with the modelled fetch always passes the order part of the benchmark's check. */
  lemma ServerFetchIsAcceptable(ms: seq<Store.Message>, ch: int, after: int)
    requires Store.IdsIncreasing(ms)
    ensures IdsAcceptable(after, RowIds(Engine.Fetch(ms, ch, after)))
  {
    var f := Engine.Fetch(ms, ch, after);
    Engine.FetchIsNewest(ms, ch, after);
    if f != [] {
      assert f[0] in f;
    }
  }

  // ---------------------------------------------------------------------------
  // GET /history: the pagination strip
  // ---------------------------------------------------------------------------

  /** The state of the scan over the strip: the last page number and whether arrows were seen. */
  datatype Strip = Strip(page: int, arrowL: bool, arrowR: bool)

  /** One item of the strip, trimmed: an arrow, the next page number, or an error (None). */
  function ScanItem(st: Strip, item: string): Option<Strip> {
    var text := Trim(item);
    match GoParseInt(text)
    case None =>
      if text == "«" then Some(st.(arrowL := true))
      else if text == "»" then Some(st.(arrowR := true))
      else None
    case Some(n) =>
      if n != 1 && n != st.page + 1 then None else Some(st.(page := n))
  }

  /** The scan over the first items of the strip; None once an item was refused. */
  function Scan(items: seq<string>): Option<Strip>
    decreases |items|
  {
    if items == [] then Some(Strip(0, false, false))
    else match Scan(items[..|items| - 1])
      case None => None
      case Some(st) => ScanItem(st, items[|items| - 1])
  }

  /** What validateHistoryPagination returns: the last page number shown, or a (fatal) error. */
  function Pagination(items: seq<string>): Option<int> {
    match Scan(items)
    case None => None
    case Some(st) =>
      if st.page == 0 then None
      else if st.page == 1 && (st.arrowL || st.arrowR) then None
      else Some(st.page)
  }

  /** The body of validateHistoryPagination's loop for one item: an arrow, the next page number, or an error. */
  method ScanItemStep(st: Strip, item: string) returns (next: Option<Strip>)
    ensures next == ScanItem(st, item)
    ensures next.Some? ==> next.value.page == st.page || next.value.page == 1 || next.value.page == st.page + 1
  {
    var text := Trim(item);
    var n := GoParseInt(text);
    if n.None? {
      if text == "«" {
        return Some(st.(arrowL := true));
      } else if text == "»" {
        return Some(st.(arrowR := true));
      }
      return None;
    }
    if n.value != 1 && n.value != st.page + 1 {
      return None;
    }
    return Some(st.(page := n.value));
  }

  /** validateHistoryPagination over the texts of the strip's items. */
  method ValidateHistoryPagination(items: seq<string>) returns (r: Option<int>)
    ensures r == Pagination(items)
    ensures r.Some? ==> r.value >= 1
  {
    var page := 0;
    var arrowR := false;
    var arrowL := false;
    for i := 0 to |items|
      invariant Scan(items[..i]) == Some(Strip(page, arrowL, arrowR))
      invariant page >= 0
    {
      assert items[..i + 1][..i] == items[..i];
      var next := ScanItemStep(Strip(page, arrowL, arrowR), items[i]);
      if next.None? {
        ScanStopsAtError(items, i + 1);
        return None;
      }
      page, arrowL, arrowR := next.value.page, next.value.arrowL, next.value.arrowR;
    }
    assert items[..|items|] == items;
    if page == 0 {
      return None;
    }
    if page == 1 && (arrowR || arrowL) {
      return None;
    }
    return Some(page);
  }

  /** Once an item is refused, the whole strip is. */
  lemma {:induction false} ScanStopsAtError(items: seq<string>, k: nat)
    requires k <= |items| && Scan(items[..k]).None?
    ensures Scan(items).None?
    decreases |items| - k
  {
    if k < |items| {
      assert items[..k + 1][..k] == items[..k];
      ScanStopsAtError(items, k + 1);
    } else {
      assert items[..k] == items;
    }
  }

  /** The numbers 1, 2, ..., k as the server prints them. */
  function PageNumbers(k: nat): (s: seq<string>)
    ensures |s| == k
  {
    if k == 0 then [] else PageNumbers(k - 1) + [NatToString(k)]
  }

  lemma TrimDigits(s: string)
    requires AllDigits(s)
    ensures Trim(s) == s
  {
    DigitsPassThrough(s);
    assert !IsSpace(s[|s| - 1]);
  }

  /** A printed page number is read as that number; one past the int64 range is refused. */
  lemma PrintedNumberScans(st: Strip, k: nat)
    ensures ScanItem(st, NatToString(k)) ==
      if k > Int64Max || (k != 1 && k != st.page + 1) then None else Some(st.(page := k))
  {
    var s := NatToString(k);
    TrimDigits(s);
    ParsersReadPrintedNumbers(k);
    if k > Int64Max {
      GoRefusesPastInt64(k);
      assert s != "«" && s != "»" by { assert IsDigit(s[0]); }
    }
  }

  /** A strip showing the pages 1 to k in order is read as k pages. */
  lemma {:induction false} PageNumbersAccepted(k: nat)
    requires k <= Int64Max
    ensures Scan(PageNumbers(k)) == Some(Strip(k, false, false))
    ensures k >= 1 ==> Pagination(PageNumbers(k)) == Some(k)
  {
    if k > 0 {
      PageNumbersAccepted(k - 1);
      PrintedNumberScans(Strip(k - 1, false, false), k);
      assert PageNumbers(k)[..k - 1] == PageNumbers(k - 1);
    }
  }

  /** A page number out of sequence, or a strip without numbers, is refused. */
  lemma {:induction false} BrokenStripRefused(k: nat, j: nat)
    requires 1 <= k <= Int64Max && j != 1 && j != k + 1
    ensures Pagination(PageNumbers(k) + [NatToString(j)]) == None
    ensures Pagination([]) == None
  {
    var items := PageNumbers(k) + [NatToString(j)];
    PageNumbersAccepted(k);
    PrintedNumberScans(Strip(k, false, false), j);
    assert items[..|items| - 1] == PageNumbers(k);
    assert Scan(items) == None;
  }

  // ---------------------------------------------------------------------------
  // GET /history: the number of pages, and which pages to follow
  // ---------------------------------------------------------------------------

  /** The pages needed for n messages, counting an empty channel as one message. */
  function RaisedPages(n: int): int {
    ((if n == 0 then 1 else n) + 19) / 20
  }

  /** The page count shown must fit the snapshot bounds on the channel's messages. */
  predicate PageCountPlausible(minMsg: int, maxMsg: int, page: int) {
    RaisedPages(minMsg) <= page <= RaisedPages(maxMsg)
  }

  lemma PagesMonotone(a: nat, b: nat)
    requires a <= b
    ensures RaisedPages(a) <= RaisedPages(b)
  {
  }

  lemma RaisedIsMaxPage(cnt: nat)
    ensures RaisedPages(cnt) == Engine.MaxPage(cnt)
  {
    var q := Engine.PagesFor(cnt);
    if cnt > 0 {
      assert (q - 1) * 20 < cnt <= q * 20;
      assert (cnt + 19) / 20 == q;
    }
  }

  /**
   * A server holding between the lower and the upper bound of messages in
   * the channel shows a page count the benchmark's check accepts.
   */
  lemma ServerPageCountPlausible(minMsg: nat, maxMsg: nat, cnt: nat)
    requires minMsg <= cnt <= maxMsg
    ensures PageCountPlausible(minMsg, maxMsg, Engine.MaxPage(cnt))
  {
    RaisedIsMaxPage(cnt);
    var lo := if minMsg == 0 then 1 else minMsg;
    var mid := if cnt == 0 then 1 else cnt;
    var hi := if maxMsg == 0 then 1 else maxMsg;
    PagesMonotone(lo, mid);
    PagesMonotone(mid, hi);
  }

  datatype FollowMode = FollowRandom | FollowHead | FollowTail

  /** The random mode: the first five of a permutation of the pages. */
  function RandomPages(maxPage: nat, perm: seq<nat>): (pages: seq<int>)
    requires IsPerm(perm, maxPage)
    ensures |pages| == Min(5, maxPage)
    ensures forall i :: 0 <= i < |pages| ==> 1 <= pages[i] <= maxPage
    ensures forall i, j :: 0 <= i < j < |pages| ==> pages[i] != pages[j]
  {
    seq(Min(5, maxPage), i requires 0 <= i < Min(5, maxPage) => perm[i] + 1)
  }

  /** The head mode: pages 1, 2, ... up to five of them. */
  function HeadPages(maxPage: nat): (pages: seq<int>)
    ensures |pages| == Min(5, maxPage)
    ensures forall i :: 0 <= i < |pages| ==> 1 <= pages[i] <= maxPage
    ensures forall i, j :: 0 <= i < j < |pages| ==> pages[i] < pages[j]
  {
    seq(Min(5, maxPage), i requires 0 <= i < Min(5, maxPage) => i + 1)
  }

  /** The tail mode as written: counts down from maxPage while the page is at least 0. */
  function TailPages(maxPage: nat): (pages: seq<int>)
    ensures |pages| == Min(5, maxPage + 1)
    ensures forall i, j :: 0 <= i < j < |pages| ==> pages[i] > pages[j]
  {
    seq(Min(5, maxPage + 1), i requires 0 <= i < Min(5, maxPage + 1) => maxPage - i)
  }

  /** The tail mode as intended: counts down from maxPage to page 1 at the lowest. */
  function IntendedTailPages(maxPage: nat): (pages: seq<int>)
    ensures |pages| == Min(5, maxPage)
    ensures forall i :: 0 <= i < |pages| ==> 1 <= pages[i] <= maxPage
    ensures forall i, j :: 0 <= i < j < |pages| ==> pages[i] > pages[j]
    ensures maxPage >= 1 ==> pages[0] == maxPage
  {
    seq(Min(5, maxPage), i requires 0 <= i < Min(5, maxPage) => maxPage - i)
  }

  /** The pages CheckGetHistory then loads, at most five. */
  method SelectPages(mode: FollowMode, maxPage: nat, perm: seq<nat>) returns (pages: seq<int>)
    requires mode == FollowRandom ==> IsPerm(perm, maxPage)
    ensures mode == FollowRandom ==> pages == RandomPages(maxPage, perm)
    ensures mode == FollowHead ==> pages == HeadPages(maxPage)
    ensures mode == FollowTail ==> pages == TailPages(maxPage)
    ensures |pages| <= 5
  {
    pages := [];
    if mode == FollowRandom {
      ghost var spec := RandomPages(maxPage, perm);
      var k := 0;
      while k < |perm|
        invariant 0 <= k <= maxPage && k < 5 && pages == spec[..k]
      {
        pages := pages + [perm[k] + 1];
        k := k + 1;
        assert pages == spec[..k];
        if 5 <= |pages| {
          assert spec[..k] == spec;
          break;
        }
      }
    } else if mode == FollowHead {
      ghost var spec := HeadPages(maxPage);
      var i := 1;
      while i <= maxPage
        invariant 1 <= i <= maxPage + 1 && i <= 5 && pages == spec[..i - 1]
      {
        pages := pages + [i];
        i := i + 1;
        assert pages == spec[..i - 1];
        if 5 <= |pages| {
          assert spec[..i - 1] == spec;
          break;
        }
      }
    } else {
      ghost var spec := TailPages(maxPage);
      var i: int := maxPage;
      while 0 <= i
        invariant -1 <= i <= maxPage && maxPage - i < 5 && pages == spec[..maxPage - i]
        decreases i + 1
      {
        pages := pages + [i];
        i := i - 1;
        assert pages == spec[..maxPage - i];
        if 5 <= |pages| {
          assert spec[..maxPage - i] == spec;
          break;
        }
      }
    }
  }

  /**
   * With fewer than five pages the tail mode also asks for page 0, which
   * every server answers with 400.
   */
  lemma TailPagesReachZero(maxPage: nat, cnt: nat)
    requires maxPage < 5
    ensures 0 in TailPages(maxPage)
    ensures !Engine.PageInRange(Some(0), cnt)
  {
    assert TailPages(maxPage)[maxPage] == 0;
  }

  /** Every page the intended tail mode asks for exists on a server showing maxPage pages. */
  lemma IntendedTailPagesExist(cnt: nat)
    ensures forall p :: p in IntendedTailPages(Engine.MaxPage(cnt)) ==> Engine.PageInRange(Some(p), cnt)
  {
  }

  // ---------------------------------------------------------------------------
  // GET /history?page=p: the messages shown
  // ---------------------------------------------------------------------------

  predicate Distinct(contents: seq<string>) {
    forall i, j :: 0 <= i < j < |contents| ==> contents[i] != contents[j]
  }

  /** A page before the last shows exactly 20 messages; the last one 1 to 20. */
  predicate PageCountOk(page: int, maxPage: int, n: nat) {
    if page == maxPage then 1 <= n <= 20 else n == 20
  }

  /** The count and duplicate checks on one history page (the per-message checks are left out). */
  method CheckHistoryPage(contents: seq<string>, page: int, maxPage: int) returns (r: Outcome)
    ensures r == Pass <==> Distinct(contents) && PageCountOk(page, maxPage, |contents|)
    ensures r != Pass ==> r.fatal
  {
    var seen: set<string> := {};
    for i := 0 to |contents|
      invariant seen == set j | 0 <= j < i :: contents[j]
      invariant forall a, b :: 0 <= a < b < i ==> contents[a] != contents[b]
    {
      if contents[i] in seen {
        return Fail(true);
      }
      seen := seen + {contents[i]};
    }
    if page == maxPage {
      if !(1 <= |contents| && |contents| <= 20) {
        return Fail(true);
      }
    } else {
      if |contents| != 20 {
        return Fail(true);
      }
    }
    return Pass;
  }

  /** Every page a server shows for a non-empty channel has the size the benchmark's check demands. */
  lemma ServerPageSizeOk(ms: seq<Store.Message>, ch: int, page: nat)
    requires Store.CountChannel(ms, ch) > 0
    requires 1 <= page <= Engine.MaxPage(Store.CountChannel(ms, ch))
    ensures PageCountOk(page, Engine.MaxPage(Store.CountChannel(ms, ch)), |Engine.HistoryPage(ms, ch, page)|)
  {
    Engine.HistoryPageSize(ms, ch, page);
  }

  // ---------------------------------------------------------------------------
  // GET /fetch
  // ---------------------------------------------------------------------------

  predicate InRange(minCnt: map<int, int>, maxCnt: map<int, int>, x: JsonUnreadInfo) {
    Get(minCnt, x.channelId) <= x.unread <= Get(maxCnt, x.channelId)
  }

  /** CheckFecthUnreadCount: every count within the snapshot bounds of its channel, else fatal. */
  method CheckUnreadCounts(minCnt: map<int, int>, maxCnt: map<int, int>, unreads: seq<JsonUnreadInfo>) returns (r: Outcome)
    ensures r == Pass <==> forall x :: x in unreads ==> InRange(minCnt, maxCnt, x)
    ensures r != Pass ==> r.fatal
  {
    var valid := true;
    for i := 0 to |unreads|
      invariant valid <==> forall j :: 0 <= j < i ==> InRange(minCnt, maxCnt, unreads[j])
    {
      var x := unreads[i];
      if !(Get(minCnt, x.channelId) <= x.unread && x.unread <= Get(maxCnt, x.channelId)) {
        valid := false;
      }
    }
    if !valid {
      return Fail(true);
    }
    return Pass;
  }

  /** The unread rule of checkPlusOne for one channel. */
  predicate PlusOne(prev: map<int, int>, chanId: int, u: JsonUnreadInfo) {
    if u.channelId == chanId then Get(prev, u.channelId) + 1 == u.unread else Get(prev, u.channelId) <= u.unread
  }

  /** checkPlusOne: after one post to chanId, that channel shows one more unread and no other shows fewer. */
  method CheckPlusOne(prev: map<int, int>, chanId: int, unreads: seq<JsonUnreadInfo>) returns (r: Outcome)
    ensures r == Pass <==> forall u :: u in unreads ==> PlusOne(prev, chanId, u)
    ensures r != Pass ==> r.fatal
  {
    for i := 0 to |unreads|
      invariant forall j :: 0 <= j < i ==> PlusOne(prev, chanId, unreads[j])
    {
      var u := unreads[i];
      var p := Get(prev, u.channelId);
      if u.channelId == chanId {
        if p + 1 != u.unread {
          assert u in unreads && !PlusOne(prev, chanId, u);
          return Fail(true);
        }
      } else {
        if p > u.unread {
          assert u in unreads && !PlusOne(prev, chanId, u);
          return Fail(true);
        }
      }
    }
    return Pass;
  }

  /** The server's unread list for a reader, as the benchmark decodes it. */
  function UnreadJson(ms: seq<Store.Message>, haveread: map<(int, int), int>, user: int, chs: seq<int>): (r: seq<JsonUnreadInfo>)
    ensures |r| == |chs|
  {
    seq(|chs|, i requires 0 <= i < |chs| => JsonUnreadInfo(chs[i], Engine.Unread(ms, Engine.Cursor(haveread, user, chs[i]), chs[i])))
  }

  /**
   * A reader whose cursors are all older than a new post, and whose previous
   * counts were the server's, passes checkPlusOne after the post.
   */
  lemma ServerPassesPlusOne(ms: seq<Store.Message>, m: Store.Message, haveread: map<(int, int), int>, user: int, chs: seq<int>, prev: map<int, int>)
    requires forall c :: (user, c) in haveread ==> haveread[(user, c)] < m.id
    requires forall c :: c in chs ==> Get(prev, c) == Engine.Unread(ms, Engine.Cursor(haveread, user, c), c)
    ensures forall u :: u in UnreadJson(ms + [m], haveread, user, chs) ==> PlusOne(prev, m.channel, u)
  {
    var after := UnreadJson(ms + [m], haveread, user, chs);
    forall u | u in after
      ensures PlusOne(prev, m.channel, u)
    {
      var i :| 0 <= i < |chs| && after[i] == u;
      Engine.UnreadAfterPost(ms, m, Engine.Cursor(haveread, user, chs[i]), chs[i]);
    }
  }

  // ---------------------------------------------------------------------------
  // Redirects
  // ---------------------------------------------------------------------------

  /** checkRedirectStatusCode: 302 and 303 pass; anything else is an error, not a fatal one. */
  function CheckRedirectStatusCode(status: int): (r: Outcome)
    ensures r == Pass <==> status == 302 || status == 303
    ensures r != Pass ==> !r.fatal
  {
    if status == 302 || status == 303 then Pass else Fail(false)
  }
}
