/**
 * The browser client (webapp/public/js/chat.js): the timeline of shown
 * messages, the read position it polls from, the unread badges and the
 * polling cycle. Requests the page sends are recorded in `sent`; answers
 * arrive through the `On...` methods, one per callback.
 */
module ChatClient {
  import opened Base
  import opened Text
  import opened Numbers
  import opened Engine

  /** The timeline keeps at most this many messages. */
  const TimelineMax: nat := 100

  /** A JavaScript number as far as the client uses it: an integer or NaN. */
  datatype JsNum = Num(n: int) | NaN

  /** Math.max: NaN when either argument is NaN. */
  function JsMax(a: JsNum, b: JsNum): (m: JsNum)
    ensures m.NaN? <==> a.NaN? || b.NaN?
    ensures m.Num? ==> m.n >= a.n && m.n >= b.n && (m.n == a.n || m.n == b.n)
  {
    if a.NaN? || b.NaN? then NaN else Num(Max(a.n, b.n))
  }

  /** A message as `append` shows it. */
  datatype Shown = Shown(id: JsNum, name: string, displayName: string, avatarIcon: string, content: string)

  /** The requests the page sends. */
  datatype Request =
    | FetchUnread
    | GetMessage(lastMessageId: int, channelId: string)
    | PostMessage(channelId: string, message: string)

  /** Where the polling cycle is: idle, waiting for /fetch, waiting for /message, or stopped for good. */
  datatype Cycle = Idle | AwaitUnread | AwaitMessages | Stalled

  // ---------------------------------------------------------------------------
  // get_channel_id
  // ---------------------------------------------------------------------------

  /** The segment after the first "channel" segment from index i on that is not the last one, else "1". */
  function ChannelSegmentFrom(ar: seq<string>, i: nat): (id: string)
    requires i <= |ar|
    ensures id == "1" || exists k :: i <= k && k + 1 < |ar| && ar[k] == "channel" && id == ar[k + 1]
    decreases |ar| - i
  {
    if i == |ar| then "1"
    else if ar[i] == "channel" && |ar| != i + 1 then ar[i + 1]
    else ChannelSegmentFrom(ar, i + 1)
  }

  function ChannelSegment(path: string): string {
    ChannelSegmentFrom(Split(path, '/'), 0)
  }

  /** A "channel" segment at index k that is not the last segment. */
  predicate Eligible(ar: seq<string>, k: int) {
    0 <= k < |ar| - 1 && ar[k] == "channel"
  }

  /** Without an eligible "channel" segment from i on, the answer is "1". */
  lemma {:induction false} NoChannelSegment(ar: seq<string>, i: nat)
    requires i <= |ar|
    requires forall k :: i <= k ==> !Eligible(ar, k)
    ensures ChannelSegmentFrom(ar, i) == "1"
    decreases |ar| - i
  {
    if i < |ar| {
      assert !Eligible(ar, i);
      NoChannelSegment(ar, i + 1);
    }
  }

  /** The first eligible "channel" segment from i on decides the answer. */
  lemma {:induction false} FirstChannelSegment(ar: seq<string>, i: nat, k: nat)
    requires i <= k && Eligible(ar, k)
    requires forall j :: i <= j < k ==> !Eligible(ar, j)
    ensures ChannelSegmentFrom(ar, i) == ar[k + 1]
    decreases k - i
  {
    if i < k {
      assert !Eligible(ar, i);
      FirstChannelSegment(ar, i + 1, k);
    }
  }

  /**
   * get_channel_id: splits the path at '/' and returns the segment after
   * the first "channel" segment that is not the last one, or "1".
   */
  method GetChannelId(path: string) returns (id: string)
    ensures id == ChannelSegment(path)
    ensures (forall k :: !Eligible(Split(path, '/'), k)) ==> id == "1"
    ensures forall k :: Eligible(Split(path, '/'), k) && (forall j :: 0 <= j < k ==> !Eligible(Split(path, '/'), j)) ==>
      id == Split(path, '/')[k + 1]
  {
    var ar := Split(path, '/');
    if forall k :: !Eligible(ar, k) {
      NoChannelSegment(ar, 0);
    }
    forall k | Eligible(ar, k) && (forall j :: 0 <= j < k ==> !Eligible(ar, j)) {
      FirstChannelSegment(ar, 0, k);
    }
    var i := 0;
    while i < |ar|
      invariant 0 <= i <= |ar|
      invariant ChannelSegmentFrom(ar, i) == ChannelSegmentFrom(ar, 0)
    {
      if ar[i] == "channel" && |ar| != i + 1 {
        return ar[i + 1];
      }
      i := i + 1;
    }
    return "1";
  }

  /** The channel page's path gives its channel id back. */
  lemma ChannelPathRoundTrip(id: string)
    requires '/' !in id
    ensures ChannelSegment("/channel/" + id) == id
  {
    var path := "/channel/" + id;
    assert path[0] == '/';
    assert IndexOf(path, '/') == Some(0);
    var rest := path[1..];
    assert rest == "channel/" + id;
    assert rest[7] == '/';
    assert IndexOf(rest, '/') == Some(7) by {
      assert '/' !in rest[..7];
    }
    assert rest[..7] == "channel";
    assert rest[8..] == id;
    assert Split(rest, '/') == ["channel"] + Split(id, '/');
    var ar := Split(path, '/');
    assert ar == ["", "channel", id];
    assert ChannelSegmentFrom(ar, 1) == id;
    assert ChannelSegmentFrom(ar, 0) == ChannelSegmentFrom(ar, 1);
  }

  // ---------------------------------------------------------------------------
  // Unread badges
  // ---------------------------------------------------------------------------

  /**
   * `channel.channel_id == channel_id`: JavaScript compares a number with a
   * string by converting the string with ToNumber; a blank string is 0.
   */
  function IsCurrent(ch: int, channelId: string): (b: bool)
    ensures AllDigits(channelId) ==> (b <==> ch == DigitsValue(channelId))
    ensures Trim(channelId) == "" ==> (b <==> ch == 0)
  {
    JsDigitsEqual(ch, channelId);
    JsLooseEquals(ch, channelId)
  }

  /** Other spellings of a channel id are the same channel to `==`. */
  lemma OtherSpellingsAreCurrent()
    ensures IsCurrent(1, "+1") && IsCurrent(1, "1.0") && IsCurrent(1, "1e0") && IsCurrent(1, "0x1")
  {
    JsOtherSpellingsOfOne();
  }

  /** Text after the id, or a fraction, makes it no channel at all. */
  lemma TextAfterIsNotCurrent(ch: int)
    ensures !IsCurrent(ch, "1abc") && !IsCurrent(1, "1.5")
  {
    assert ExponentAt("abc").1 == 0;
    assert "1abc" == ['1'] + "abc";
    JsTrailingText('1', "abc", ch);
    JsFraction('1', '5');
    assert "1.5" == ['1', '.', '5'];
  }

  /** The text of a channel's badge: empty for the current channel or for no unread message. */
  function BadgeText(current: bool, unread: nat): (t: string)
    ensures t == "" <==> current || unread == 0
    ensures t != "" ==> AllDigits(t) && DigitsValue(t) == unread
  {
    if current || unread == 0 then ""
    else
      DigitsValueOfNatToString(unread);
      NatToString(unread)
  }

  /** The badges after one pass over the /fetch answer. */
  function Badges(badges: map<int, string>, json: seq<UnreadInfo>, channelId: string): map<int, string>
    decreases |json|
  {
    if json == [] then badges
    else
      var last := json[|json| - 1];
      Badges(badges, json[..|json| - 1], channelId)[last.channelId := BadgeText(IsCurrent(last.channelId, channelId), last.unread)]
  }

  /** The pass adds a badge for every channel of the answer and removes none. */
  lemma {:induction false} BadgesKeys(badges: map<int, string>, json: seq<UnreadInfo>, channelId: string)
    ensures Badges(badges, json, channelId).Keys == badges.Keys + set i | 0 <= i < |json| :: json[i].channelId
    decreases |json|
  {
    if json != [] {
      var init := json[..|json| - 1];
      var last := json[|json| - 1];
      assert (set i | 0 <= i < |json| :: json[i].channelId) == (set i | 0 <= i < |init| :: init[i].channelId) + {last.channelId} by {
        forall i | 0 <= i < |init| ensures init[i].channelId == json[i].channelId { }
      }
      BadgesKeys(badges, init, channelId);
    }
  }

  /** Every channel appears at most once in the /fetch answer. */
  predicate UniqueChannels(json: seq<UnreadInfo>) {
    forall i, j :: 0 <= i < j < |json| ==> json[i].channelId != json[j].channelId
  }

  /** After the pass, a listed channel shows the badge of its (only) entry. */
  lemma BadgesShowUnread(badges: map<int, string>, json: seq<UnreadInfo>, channelId: string, i: nat)
    requires UniqueChannels(json)
    requires i < |json|
    ensures json[i].channelId in Badges(badges, json, channelId)
    ensures Badges(badges, json, channelId)[json[i].channelId] == BadgeText(IsCurrent(json[i].channelId, channelId), json[i].unread)
  {
    BadgesIsRebadge(badges, json, channelId);
    RebadgeShows(badges, json, BadgeFor(channelId), i);
  }

  /** The badge text an entry of the answer gets while channelId is the current channel. */
  function BadgeFor(channelId: string): UnreadInfo -> string {
    (e: UnreadInfo) => BadgeText(IsCurrent(e.channelId, channelId), e.unread)
  }

  /** The pass, with the badge of an entry left abstract. */
  function Rebadge(badges: map<int, string>, json: seq<UnreadInfo>, badge: UnreadInfo -> string): map<int, string>
    decreases |json|
  {
    if json == [] then badges
    else Rebadge(badges, json[..|json| - 1], badge)[json[|json| - 1].channelId := badge(json[|json| - 1])]
  }

  /** Badges is the pass with each entry's badge text. */
  lemma {:induction false} BadgesIsRebadge(badges: map<int, string>, json: seq<UnreadInfo>, channelId: string)
    ensures Badges(badges, json, channelId) == Rebadge(badges, json, BadgeFor(channelId))
    decreases |json|
  {
    if json != [] {
      BadgesIsRebadge(badges, json[..|json| - 1], channelId);
    }
  }

  /** With each channel listed once, the pass leaves every listed channel with its own entry's badge. */
  lemma {:induction false} RebadgeShows(badges: map<int, string>, json: seq<UnreadInfo>, badge: UnreadInfo -> string, i: nat)
    requires UniqueChannels(json)
    requires i < |json|
    ensures json[i].channelId in Rebadge(badges, json, badge)
    ensures Rebadge(badges, json, badge)[json[i].channelId] == badge(json[i])
    decreases |json|
  {
    var n := |json| - 1;
    if i < n {
      var p := json[..n];
      assert p[i] == json[i];
      assert json[i].channelId != json[n].channelId;
      UniqueChannelsPrefix(json, n);
      RebadgeShows(badges, p, badge, i);
    }
  }

  /** A prefix of an answer with unique channels has unique channels. */
  lemma UniqueChannelsPrefix(json: seq<UnreadInfo>, n: nat)
    requires UniqueChannels(json) && n <= |json|
    ensures UniqueChannels(json[..n])
  {
    var p := json[..n];
    forall a, b | 0 <= a < b < |p|
      ensures p[a].channelId != p[b].channelId
    {
      assert p[a] == json[a] && p[b] == json[b];
    }
  }

  /** After the pass, the badge of a channel not listed is untouched. */
  lemma {:induction false} BadgesKeepOthers(badges: map<int, string>, json: seq<UnreadInfo>, channelId: string, ch: int)
    requires forall i :: 0 <= i < |json| ==> json[i].channelId != ch
    ensures ch in Badges(badges, json, channelId) <==> ch in badges
    ensures ch in badges ==> Badges(badges, json, channelId)[ch] == badges[ch]
    decreases |json|
  {
    if json != [] {
      BadgesKeepOthers(badges, json[..|json| - 1], channelId, ch);
    }
  }

  /** Whether some entry of the answer reports unread messages in the current channel. */
  predicate Updated(json: seq<UnreadInfo>, channelId: string)
    decreases |json|
  {
    if json == [] then false
    else
      var last := json[|json| - 1];
      Updated(json[..|json| - 1], channelId) || (IsCurrent(last.channelId, channelId) && last.unread > 0)
  }

  /** Whether an entry reports unread messages in the current channel. */
  function HotFor(channelId: string): UnreadInfo -> bool {
    (e: UnreadInfo) => IsCurrent(e.channelId, channelId) && e.unread > 0
  }

  /** The flag's pass, with the test of an entry left abstract. */
  predicate AnyHot(json: seq<UnreadInfo>, hot: UnreadInfo -> bool)
    decreases |json|
  {
    json != [] && (AnyHot(json[..|json| - 1], hot) || hot(json[|json| - 1]))
  }

  /** Updated is the pass with the current-channel test. */
  lemma {:induction false} UpdatedIsAnyHot(json: seq<UnreadInfo>, channelId: string)
    ensures Updated(json, channelId) == AnyHot(json, HotFor(channelId))
    decreases |json|
  {
    if json != [] {
      UpdatedIsAnyHot(json[..|json| - 1], channelId);
    }
  }

  /** The pass finds an entry exactly when one passes the test. */
  lemma {:induction false} AnyHotExactly(json: seq<UnreadInfo>, hot: UnreadInfo -> bool)
    ensures AnyHot(json, hot) <==> exists i :: 0 <= i < |json| && hot(json[i])
    decreases |json|
  {
    if json != [] {
      var n := |json| - 1;
      var init := json[..n];
      AnyHotExactly(init, hot);
      if AnyHot(init, hot) {
        var i :| 0 <= i < |init| && hot(init[i]);
        assert init[i] == json[i];
      }
      if exists i :: 0 <= i < |json| && hot(json[i]) {
        var i :| 0 <= i < |json| && hot(json[i]);
        if i < n {
          assert init[i] == json[i];
        }
      }
    }
  }

  /** The flag is set exactly when some entry is the current channel with unread messages. */
  lemma UpdatedExactly(json: seq<UnreadInfo>, channelId: string)
    ensures Updated(json, channelId) <==>
      exists i :: 0 <= i < |json| && IsCurrent(json[i].channelId, channelId) && json[i].unread > 0
  {
    UpdatedIsAnyHot(json, channelId);
    AnyHotExactly(json, HotFor(channelId));
    assert forall i :: 0 <= i < |json| ==> (HotFor(channelId)(json[i]) <==> IsCurrent(json[i].channelId, channelId) && json[i].unread > 0);
  }

  lemma BadgesSnoc(badges: map<int, string>, json: seq<UnreadInfo>, i: nat, channelId: string)
    requires i < |json|
    ensures Badges(badges, json[..i + 1], channelId) ==
      Badges(badges, json[..i], channelId)[json[i].channelId := BadgeText(IsCurrent(json[i].channelId, channelId), json[i].unread)]
  {
    assert json[..i + 1][..i] == json[..i];
  }

  lemma UpdatedSnoc(json: seq<UnreadInfo>, i: nat, channelId: string)
    requires i < |json|
    ensures Updated(json[..i + 1], channelId) <==>
      Updated(json[..i], channelId) || (IsCurrent(json[i].channelId, channelId) && json[i].unread > 0)
  {
    assert json[..i + 1][..i] == json[..i];
  }

  /**
   * The `json.forEach` pass of the /fetch callback: rewrites each listed
   * channel's badge and notes whether the current channel has unread messages.
   */
  method ReadUnread(badges: map<int, string>, json: seq<UnreadInfo>, ch: string) returns (b: map<int, string>, updated: bool)
    ensures b == Badges(badges, json, ch)
    ensures updated <==> Updated(json, ch)
  {
    updated := false;
    b := badges;
    for i := 0 to |json|
      invariant b == Badges(badges, json[..i], ch)
      invariant updated <==> Updated(json[..i], ch)
    {
      var current := IsCurrent(json[i].channelId, ch);
      UpdatedSnoc(json, i, ch);
      BadgesSnoc(badges, json, i, ch);
      if current && 0 < json[i].unread {
        updated := true;
      }
      b := b[json[i].channelId := BadgeText(current, json[i].unread)];
    }
    assert json[..|json|] == json;
  }

  // ---------------------------------------------------------------------------
  // The page
  // ---------------------------------------------------------------------------

  /** The timeline after showing `msgs` one by one: the last 100 of them all. */
  function Timeline(timeline: seq<Shown>, msgs: seq<Shown>): seq<Shown> {
    LastN(timeline + msgs, TimelineMax)
  }

  /** last_message_id after showing `msgs` one by one. */
  function LastIdAfter(last: JsNum, msgs: seq<Shown>): JsNum
    decreases |msgs|
  {
    if msgs == [] then last else JsMax(LastIdAfter(last, msgs[..|msgs| - 1]), msgs[|msgs| - 1].id)
  }

  /** Once a number, last_message_id only grows while the shown ids are numbers. */
  lemma {:induction false} LastIdNeverDecreases(last: int, msgs: seq<Shown>)
    requires forall i :: 0 <= i < |msgs| ==> msgs[i].id.Num?
    ensures LastIdAfter(Num(last), msgs).Num?
    ensures LastIdAfter(Num(last), msgs).n >= last
    ensures forall i :: 0 <= i < |msgs| ==> LastIdAfter(Num(last), msgs).n >= msgs[i].id.n
  {
    if msgs != [] {
      LastIdNeverDecreases(last, msgs[..|msgs| - 1]);
    }
  }

  /** Once NaN, last_message_id stays NaN. */
  lemma {:induction false} NaNSticks(msgs: seq<Shown>)
    ensures LastIdAfter(NaN, msgs) == NaN
  {
    if msgs != [] {
      NaNSticks(msgs[..|msgs| - 1]);
    }
  }

  /** Dropping the oldest entries after each append equals dropping them once at the end. */
  lemma LastNSnoc<T>(s: seq<T>, x: T, n: nat)
    ensures LastN(LastN(s, n) + [x], n) == LastN(s + [x], n)
  {
  }

  /** What one more append does to the timeline and the cursor of AppendAll's loop. */
  lemma AppendStep(t0: seq<Shown>, l0: JsNum, msgs: seq<Shown>, i: nat)
    requires i < |msgs|
    ensures LastN(LastN(t0 + msgs[..i], TimelineMax) + [msgs[i]], TimelineMax) == LastN(t0 + msgs[..i + 1], TimelineMax)
    ensures LastIdAfter(l0, msgs[..i + 1]) == JsMax(LastIdAfter(l0, msgs[..i]), msgs[i].id)
  {
    LastNSnoc(t0 + msgs[..i], msgs[i], TimelineMax);
    assert msgs[..i + 1] == msgs[..i] + [msgs[i]];
    assert t0 + msgs[..i] + [msgs[i]] == t0 + msgs[..i + 1];
    assert msgs[..i + 1][..i] == msgs[..i];
  }

  class Client {
    /** window.location.pathname. */
    const path: string
    var lastMessageId: JsNum
    /** The message divs of #timeline, oldest first. */
    var timeline: seq<Shown>
    /** Whether setInterval has been installed (after the first messages arrived). */
    var started: bool
    var loading: bool
    var cycle: Cycle
    /** The text of each #unread-<channel id> badge. */
    var badges: map<int, string>
    var textarea: string
    /** Every request sent, in order. */
    var sent: seq<Request>

    /** At most 100 messages are shown; `loading` is set exactly while a poll cycle is open. */
    predicate Valid()
      reads this
    {
      && |timeline| <= TimelineMax
      && (loading <==> cycle != Idle)
      && (!started ==> cycle == Idle)
    }

    /** Page load: the first get_message, with last_message_id 0. */
    constructor (path: string)
      ensures Valid()
      ensures this.path == path && lastMessageId == Num(0) && timeline == [] && !started && !loading
      ensures badges == map[] && textarea == ""
      ensures sent == [GetMessage(0, ChannelSegment(path))]
    {
      this.path := path;
      lastMessageId := Num(0);
      timeline := [];
      started := false;
      loading := false;
      cycle := Idle;
      badges := map[];
      textarea := "";
      var ch := GetChannelId(path);
      sent := [GetMessage(0, ch)];
    }

    /** append(msg): show it, raise last_message_id, drop the oldest beyond 100. */
    method Append(m: Shown)
      requires Valid()
      modifies this
      ensures Valid()
      ensures timeline == LastN(old(timeline) + [m], TimelineMax)
      ensures lastMessageId == JsMax(old(lastMessageId), m.id)
      ensures started == old(started) && loading == old(loading) && cycle == old(cycle)
      ensures badges == old(badges) && textarea == old(textarea) && sent == old(sent)
    {
      timeline := timeline + [m];
      lastMessageId := JsMax(lastMessageId, m.id);
      if TimelineMax < |timeline| {
        timeline := timeline[|timeline| - TimelineMax..];
      }
    }

    /** `messages.forEach(append)`. */
    method AppendAll(msgs: seq<Shown>)
      requires Valid()
      modifies this
      ensures Valid()
      ensures timeline == Timeline(old(timeline), msgs)
      ensures lastMessageId == LastIdAfter(old(lastMessageId), msgs)
      ensures started == old(started) && loading == old(loading) && cycle == old(cycle)
      ensures badges == old(badges) && textarea == old(textarea) && sent == old(sent)
    {
      ghost var t0, l0 := timeline, lastMessageId;
      for i := 0 to |msgs|
        invariant Valid()
        invariant timeline == LastN(t0 + msgs[..i], TimelineMax)
        invariant lastMessageId == LastIdAfter(l0, msgs[..i])
        invariant started == old(started) && loading == old(loading) && cycle == old(cycle)
        invariant badges == old(badges) && textarea == old(textarea) && sent == old(sent)
      {
        AppendStep(t0, l0, msgs, i);
        Append(msgs[i]);
      }
      assert msgs[..|msgs|] == msgs;
    }

    /** The first get_message's callback: show the messages, then start polling. */
    method OnFirstMessages(msgs: seq<Shown>)
      requires Valid() && !started
      modifies this
      ensures Valid() && started && !loading
      ensures timeline == Timeline(old(timeline), msgs)
      ensures lastMessageId == LastIdAfter(old(lastMessageId), msgs)
      ensures badges == old(badges) && textarea == old(textarea) && sent == old(sent)
    {
      AppendAll(msgs);
      started := true;
    }

    /** One setInterval tick: nothing while a cycle is open, else open one with /fetch. */
    method Tick()
      requires Valid()
      modifies this
      ensures Valid()
      ensures !old(started) || old(loading) ==> sent == old(sent) && loading == old(loading) && cycle == old(cycle)
      ensures old(started) && !old(loading) ==> sent == old(sent) + [FetchUnread] && loading && cycle == AwaitUnread
      ensures timeline == old(timeline) && lastMessageId == old(lastMessageId)
      ensures started == old(started) && badges == old(badges) && textarea == old(textarea)
    {
      if !started || loading {
        return;
      }
      loading := true;
      cycle := AwaitUnread;
      sent := sent + [FetchUnread];
    }

    /**
     * The /fetch callback: rewrite the badges; when the current channel has
     * unread messages, get_message (which sends nothing if last_message_id
     * is NaN, so the cycle never closes); otherwise close the cycle.
     */
    method OnUnread(json: seq<UnreadInfo>)
      requires Valid() && cycle == AwaitUnread
      modifies this
      ensures Valid()
      ensures badges == Badges(old(badges), json, ChannelSegment(path))
      ensures !Updated(json, ChannelSegment(path)) ==> !loading && sent == old(sent)
      ensures Updated(json, ChannelSegment(path)) && lastMessageId.NaN? ==> cycle == Stalled && sent == old(sent)
      ensures Updated(json, ChannelSegment(path)) && lastMessageId.Num? ==> cycle == AwaitMessages
      ensures Updated(json, ChannelSegment(path)) && lastMessageId.Num? ==>
        sent == old(sent) + [GetMessage(lastMessageId.n, ChannelSegment(path))]
      ensures timeline == old(timeline) && lastMessageId == old(lastMessageId)
      ensures started == old(started) && textarea == old(textarea)
    {
      var ch := GetChannelId(path);
      var b, updated := ReadUnread(badges, json, ch);
      badges := b;
      if !updated {
        loading := false;
        cycle := Idle;
      } else if lastMessageId.NaN? {
        cycle := Stalled;
      } else {
        ghost var s0 := sent;
        sent := sent + [GetMessage(lastMessageId.n, ch)];
        assert sent == s0 + [GetMessage(lastMessageId.n, ChannelSegment(path))];
        cycle := AwaitMessages;
      }
    }

    /** The get_message callback of a cycle: show the new messages and close the cycle. */
    method OnNewMessages(msgs: seq<Shown>)
      requires Valid() && cycle == AwaitMessages
      modifies this
      ensures Valid() && !loading
      ensures timeline == Timeline(old(timeline), msgs)
      ensures lastMessageId == LastIdAfter(old(lastMessageId), msgs)
      ensures badges == old(badges) && textarea == old(textarea) && sent == old(sent)
    {
      if 0 < |msgs| {
        AppendAll(msgs);
      } else {
        assert old(timeline) + msgs == old(timeline);
      }
      loading := false;
      cycle := Idle;
    }

    /** on_send_button: an empty textarea sends nothing; otherwise post its text and clear it. */
    method OnSendButton()
      requires Valid()
      modifies this
      ensures Valid()
      ensures old(textarea) == "" ==> sent == old(sent) && textarea == ""
      ensures old(textarea) != "" ==> sent == old(sent) + [PostMessage(ChannelSegment(path), old(textarea))] && textarea == ""
      ensures timeline == old(timeline) && lastMessageId == old(lastMessageId)
      ensures started == old(started) && loading == old(loading) && cycle == old(cycle) && badges == old(badges)
    {
      if textarea == "" {
        return;
      }
      var ch := GetChannelId(path);
      sent := sent + [PostMessage(ch, textarea)];
      textarea := "";
    }
  }
}
