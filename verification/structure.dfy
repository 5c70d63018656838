/**
 * The benchmark's shared state (bench/src/bench/structure.go): the pools of
 * users it logs in with, the channels it watches, and the register of every
 * message it has sent, with the per-channel bounds on how many of them the
 * server may already have stored (`msgCntMin` completed, `msgCntMax` begun).
 * A `Checker` is an HTTP client; here it is named by a number.
 */
module Structure {
  import opened Base
  import opened Text
  import Counter

  /** The counter key of a message shown soon after it was sent, and how soon. */
  const MessageBonus: string := "message-bonus"
  const MessageBonusMs: int := 200

  datatype JsonUser = JsonUser(id: int, avatarIcon: string, displayName: string, name: string)
  datatype JsonMessage = JsonMessage(id: int, content: string, date: string, user: JsonUser)
  datatype JsonUnreadInfo = JsonUnreadInfo(channelId: int, unread: int)

  datatype AppUser = AppUser(name: string, password: string, displayName: string)
  datatype Channel = Channel(id: int, name: string, description: string)

  /** A message the benchmark sends; `sendComplete` once the POST has returned. */
  datatype MessageInfo = MessageInfo(userName: string, channelId: int, message: string, sendComplete: bool)

  /** A Go map read: 0 for a missing key. */
  function Get(m: map<int, int>, k: int): int {
    if k in m then m[k] else 0
  }

  /** The texts of a channel's register whose POST has completed. */
  function Completed(texts: map<string, MessageInfo>): set<string> {
    set t | t in texts && texts[t].sendComplete
  }

  /** The bounds count the register: begun messages for the maximum, completed ones for the minimum. */
  predicate CountsMatch(msgMap: map<int, map<string, MessageInfo>>, msgCntMin: map<int, int>, msgCntMax: map<int, int>) {
    && msgCntMin.Keys <= msgMap.Keys
    && msgCntMax.Keys <= msgMap.Keys
    && (forall c :: c in msgMap ==> Get(msgCntMax, c) == |msgMap[c].Keys|)
    && (forall c :: c in msgMap ==> Get(msgCntMin, c) == |Completed(msgMap[c])|)
  }

  lemma SubsetCard<T>(a: set<T>, b: set<T>)
    requires a <= b
    ensures |a| <= |b|
  {
    assert b == a + (b - a);
  }

  /** Counting keeps the lower bound at or below the upper one, in every channel. */
  lemma MinAtMostMax(msgMap: map<int, map<string, MessageInfo>>, msgCntMin: map<int, int>, msgCntMax: map<int, int>, c: int)
    requires CountsMatch(msgMap, msgCntMin, msgCntMax)
    ensures 0 <= Get(msgCntMin, c) <= Get(msgCntMax, c)
  {
    if c in msgMap {
      SubsetCard(Completed(msgMap[c]), msgMap[c].Keys);
    }
  }

  /** Registering a new text in channel ch keeps the counts matched, with the bounds moved by one. */
  lemma AddedEntry(m: map<string, MessageInfo>, x: MessageInfo)
    requires x.message !in m
    ensures |m[x.message := x].Keys| == |m.Keys| + 1
    ensures |Completed(m[x.message := x])| == |Completed(m)| + (if x.sendComplete then 1 else 0)
  {
    assert m[x.message := x].Keys == m.Keys + {x.message};
    CompletedAdded(m, x);
    assert x.message !in Completed(m);
  }

  /** The completed texts after entering a new x: x joins them when its POST has completed. */
  lemma CompletedAdded(m: map<string, MessageInfo>, x: MessageInfo)
    requires x.message !in m
    ensures Completed(m[x.message := x]) == Completed(m) + (if x.sendComplete then {x.message} else {})
  {
    var m' := m[x.message := x];
    forall t
      ensures t in Completed(m') <==> t in Completed(m) || (x.sendComplete && t == x.message)
    {
    }
  }

  /** The register with x entered under its channel and text. */
  function Registered(msgMap: map<int, map<string, MessageInfo>>, x: MessageInfo): map<int, map<string, MessageInfo>> {
    var m: map<string, MessageInfo> := if x.channelId in msgMap then msgMap[x.channelId] else map[];
    msgMap[x.channelId := m[x.message := x]]
  }

  /** A count map with channel ch raised by one. */
  function Raised(cnt: map<int, int>, ch: int): map<int, int> {
    cnt[ch := Get(cnt, ch) + 1]
  }

  /** Raising channel ch adds one to its count and leaves every other count alone. */
  lemma RaisedGet(cnt: map<int, int>, ch: int)
    ensures Get(Raised(cnt, ch), ch) == Get(cnt, ch) + 1
    ensures forall c :: c != ch ==> Get(Raised(cnt, ch), c) == Get(cnt, c)
  {
  }

  /** Registering a new text keeps every registered one and holds the new one under its channel and text. */
  lemma RegisteredKeeps(msgMap: map<int, map<string, MessageInfo>>, x: MessageInfo)
    requires !(x.channelId in msgMap && x.message in msgMap[x.channelId])
    ensures x.channelId in Registered(msgMap, x) && x.message in Registered(msgMap, x)[x.channelId]
    ensures Registered(msgMap, x)[x.channelId][x.message] == x
    ensures forall c, t :: c in msgMap && t in msgMap[c] ==>
      c in Registered(msgMap, x) && t in Registered(msgMap, x)[c] && Registered(msgMap, x)[c][t] == msgMap[c][t]
  {
  }

  lemma CountsAfterAdd(msgMap: map<int, map<string, MessageInfo>>, msgCntMin: map<int, int>, msgCntMax: map<int, int>, x: MessageInfo)
    requires CountsMatch(msgMap, msgCntMin, msgCntMax)
    requires !(x.channelId in msgMap && x.message in msgMap[x.channelId])
    ensures CountsMatch(Registered(msgMap, x), if x.sendComplete then Raised(msgCntMin, x.channelId) else msgCntMin, Raised(msgCntMax, x.channelId))
  {
    var ch := x.channelId;
    var m: map<string, MessageInfo> := if ch in msgMap then msgMap[ch] else map[];
    var nm := Registered(msgMap, x);
    var nmin := if x.sendComplete then Raised(msgCntMin, ch) else msgCntMin;
    var nmax := Raised(msgCntMax, ch);
    AddedEntry(m, x);
    assert Get(msgCntMax, ch) == |m.Keys| && Get(msgCntMin, ch) == |Completed(m)|;
    forall c | c in nm
      ensures Get(nmax, c) == |nm[c].Keys| && Get(nmin, c) == |Completed(nm[c])|
    {
      if c != ch {
        assert c in msgMap && nm[c] == msgMap[c];
      }
    }
  }

  /** Completing a registered, incomplete text raises only that channel's lower bound. */
  lemma CountsAfterComplete(msgMap: map<int, map<string, MessageInfo>>, msgCntMin: map<int, int>, msgCntMax: map<int, int>, ch: int, text: string)
    requires CountsMatch(msgMap, msgCntMin, msgCntMax)
    requires ch in msgMap && text in msgMap[ch] && !msgMap[ch][text].sendComplete
    ensures CountsMatch(msgMap[ch := msgMap[ch][text := msgMap[ch][text].(sendComplete := true)]],
      msgCntMin[ch := Get(msgCntMin, ch) + 1], msgCntMax)
  {
    var m := msgMap[ch];
    var m' := m[text := m[text].(sendComplete := true)];
    assert m'.Keys == m.Keys;
    assert Completed(m') == Completed(m) + {text};
    assert text !in Completed(m);
  }

  /** The date format of a message: 19 characters with two ':', two '/' and one ' '. */
  predicate DateShaped(d: string) {
    |d| == 19 && Count(d, ':') == 2 && Count(d, '/') == 2 && Count(d, ' ') == 1
  }

  /**
   * ValidateJsonMessage: the channel has a register, the trimmed content
   * was sent to it, by this author, and the date has the shape
   * "2018/04/21 17:11:28".
   */
  predicate JsonMessageValid(msgMap: map<int, map<string, MessageInfo>>, chanId: int, msg: JsonMessage) {
    && chanId in msgMap
    && Trim(msg.content) in msgMap[chanId]
    && msgMap[chanId][Trim(msg.content)].userName == msg.user.name
    && DateShaped(msg.date)
  }

  /**
   * Once x is registered, the server's copy of it passes validation in its
   * channel: its content may carry surrounding blanks, its date must be well formed.
   */
  lemma RegisteredMessageValidates(msgMap: map<int, map<string, MessageInfo>>, x: MessageInfo, msg: JsonMessage)
    requires Trim(msg.content) == x.message && msg.user.name == x.userName && DateShaped(msg.date)
    ensures JsonMessageValid(Registered(msgMap, x), x.channelId, msg)
  {
    assert Registered(msgMap, x)[x.channelId][x.message] == x;
  }

  /** Registering x does not make any other channel's messages valid or invalid. */
  lemma RegisteringKeepsOtherChannels(msgMap: map<int, map<string, MessageInfo>>, x: MessageInfo, chanId: int, msg: JsonMessage)
    requires chanId != x.channelId
    ensures JsonMessageValid(Registered(msgMap, x), chanId, msg) <==> JsonMessageValid(msgMap, chanId, msg)
  {
    assert chanId in Registered(msgMap, x) <==> chanId in msgMap;
  }

  /** Swap-remove: the last element takes the place of element i, and the slice shrinks by one. */
  function SwapRemove<T>(s: seq<T>, i: nat): (r: seq<T>)
    requires i < |s|
    ensures |r| == |s| - 1
  {
    s[i := s[|s| - 1]][..|s| - 1]
  }

  /** Swap-remove takes out exactly element i and keeps every other in place, but the last. */
  lemma SwapRemoveKeepsRest<T>(s: seq<T>, i: nat)
    requires i < |s|
    ensures multiset(SwapRemove(s, i)) + multiset{s[i]} == multiset(s)
    ensures forall k :: 0 <= k < |s| - 1 && k != i ==> SwapRemove(s, i)[k] == s[k]
    ensures i < |s| - 1 ==> SwapRemove(s, i)[i] == s[|s| - 1]
  {
    var n := |s| - 1;
    var r := SwapRemove(s, i);
    if i == n {
      assert r == s[..n];
      assert s == r + [s[n]];
    } else {
      assert s == s[..i] + [s[i]] + s[i + 1..n] + [s[n]];
      assert r == s[..i] + [s[n]] + s[i + 1..n];
      calc {
        multiset(s);
        multiset(s[..i]) + multiset{s[i]} + multiset(s[i + 1..n]) + multiset{s[n]};
        multiset(r) + multiset{s[i]};
      }
    }
  }

  /** Where DistributeTmpChannelIDs puts one id: active until 5, then msgCheck until 2, then inactive. */
  function Place(lists: (seq<int>, seq<int>, seq<int>), id: int): (seq<int>, seq<int>, seq<int>) {
    var (active, msgCheck, inactive) := lists;
    if |active| < 5 then (active + [id], msgCheck, inactive)
    else if |msgCheck| < 2 then (active, msgCheck + [id], inactive)
    else (active, msgCheck, inactive + [id])
  }

  /** The three lists after placing `ids` in order. */
  function PlaceAll(lists: (seq<int>, seq<int>, seq<int>), ids: seq<int>): (seq<int>, seq<int>, seq<int>)
    decreases |ids|
  {
    if ids == [] then lists else Place(PlaceAll(lists, ids[..|ids| - 1]), ids[|ids| - 1])
  }

  function AllOf(lists: (seq<int>, seq<int>, seq<int>)): multiset<int> {
    multiset(lists.0) + multiset(lists.1) + multiset(lists.2)
  }

  /** Every id lands in exactly one of the three lists, and nothing else is added. */
  lemma {:induction false} PlaceAllPartitions(lists: (seq<int>, seq<int>, seq<int>), ids: seq<int>)
    ensures AllOf(PlaceAll(lists, ids)) == AllOf(lists) + multiset(ids)
    decreases |ids|
  {
    if ids != [] {
      var p := ids[..|ids| - 1];
      var x := ids[|ids| - 1];
      PlaceAllPartitions(lists, p);
      assert ids == p + [x];
      assert multiset(ids) == multiset(p) + multiset{x};
      var q := PlaceAll(lists, p);
      assert AllOf(Place(q, x)) == AllOf(q) + multiset{x};
    }
  }

  /** Placing the ids lengthens the three lists together by the number of ids. */
  lemma PlaceAllCount(lists: (seq<int>, seq<int>, seq<int>), ids: seq<int>)
    ensures var r := PlaceAll(lists, ids);
      |r.0| + |r.1| + |r.2| == |lists.0| + |lists.1| + |lists.2| + |ids|
  {
    PlaceAllPartitions(lists, ids);
    var r := PlaceAll(lists, ids);
    assert |AllOf(r)| == |r.0| + |r.1| + |r.2|;
    assert |AllOf(lists)| == |lists.0| + |lists.1| + |lists.2|;
  }

  /**
   * The active list fills up to 5 first, the msgCheck list only grows once
   * the active one is full, and then only up to 2.
   */
  lemma {:induction false} PlaceAllFillsInOrder(lists: (seq<int>, seq<int>, seq<int>), ids: seq<int>)
    ensures |PlaceAll(lists, ids).0| == if |lists.0| >= 5 then |lists.0| else Min(5, |lists.0| + |ids|)
    ensures |PlaceAll(lists, ids).1| > |lists.1| ==> |PlaceAll(lists, ids).0| >= 5
    ensures |PlaceAll(lists, ids).1| <= Max(|lists.1|, 2)
    decreases |ids|
  {
    if ids != [] {
      PlaceAllFillsInOrder(lists, ids[..|ids| - 1]);
    }
  }

  /** The ids of `channels`, in order, leaving out the indices a and b. */
  function OthersIds(channels: seq<Channel>, a: nat, b: nat): seq<int>
    decreases |channels|
  {
    if channels == [] then []
    else
      var i := |channels| - 1;
      OthersIds(channels[..i], a, b) + (if i == a || i == b then [] else [channels[i].id])
  }

  /** The ids the partition leaves for the inactive list: one fewer for each of a and b. */
  lemma {:induction false} OthersCount(channels: seq<Channel>, a: nat, b: nat)
    requires a != b
    ensures |OthersIds(channels, a, b)| == |channels| - (if a < |channels| then 1 else 0) - (if b < |channels| then 1 else 0)
    decreases |channels|
  {
    if channels != [] {
      OthersCount(channels[..|channels| - 1], a, b);
    }
  }

  /** The elements of s in the order the indices in perm give. */
  function Permuted(s: seq<int>, perm: seq<nat>): (r: seq<int>)
    requires forall k :: 0 <= k < |perm| ==> perm[k] < |s|
    ensures |r| == |perm| && forall k :: 0 <= k < |perm| ==> r[k] == s[perm[k]]
  {
    seq(|perm|, k requires 0 <= k < |perm| => s[perm[k]])
  }

  /** rand.Perm(n): every index below n once. */
  predicate IsPerm(p: seq<nat>, n: nat) {
    |p| == n && (forall i :: 0 <= i < n ==> p[i] < n) && (forall i, j :: 0 <= i < j < n ==> p[i] != p[j])
  }

  /** The channel map after entering `channels` in order into `cmap`: a later channel with the same id wins. */
  function EnterChannels(cmap: map<int, Channel>, channels: seq<Channel>): map<int, Channel>
    decreases |channels|
  {
    if channels == [] then cmap
    else
      var c := channels[|channels| - 1];
      EnterChannels(cmap, channels[..|channels| - 1])[c.id := c]
  }

  /** Entering channels adds exactly their ids to the map's keys. */
  lemma {:induction false} EnterChannelsKeys(cmap: map<int, Channel>, channels: seq<Channel>)
    ensures forall id :: id in EnterChannels(cmap, channels) <==>
      id in cmap || exists k :: 0 <= k < |channels| && channels[k].id == id
    decreases |channels|
  {
    if channels != [] {
      var n := |channels| - 1;
      EnterChannelsKeys(cmap, channels[..n]);
      forall id | id in EnterChannels(cmap, channels)
        ensures id in cmap || exists k :: 0 <= k < |channels| && channels[k].id == id
      {
        if id != channels[n].id && id !in cmap {
          var k :| 0 <= k < n && channels[..n][k].id == id;
          assert channels[k].id == id;
        }
      }
      forall id | exists k :: 0 <= k < |channels| && channels[k].id == id
        ensures id in EnterChannels(cmap, channels)
      {
        var k :| 0 <= k < |channels| && channels[k].id == id;
        if k < n {
          assert channels[..n][k].id == id;
        }
      }
    }
  }

  /** When no two channels share an id, each id maps to its own channel. */
  lemma {:induction false} EnterChannelsUnique(cmap: map<int, Channel>, channels: seq<Channel>)
    requires forall i, j :: 0 <= i < j < |channels| ==> channels[i].id != channels[j].id
    ensures forall k :: 0 <= k < |channels| ==> channels[k].id in EnterChannels(cmap, channels)
    ensures forall k :: 0 <= k < |channels| ==> EnterChannels(cmap, channels)[channels[k].id] == channels[k]
    decreases |channels|
  {
    if channels != [] {
      var n := |channels| - 1;
      var init := channels[..n];
      EnterChannelsUnique(cmap, init);
      forall k | 0 <= k < n
        ensures channels[k].id in EnterChannels(cmap, channels)
        ensures EnterChannels(cmap, channels)[channels[k].id] == channels[k]
      {
        assert init[k] == channels[k];
      }
    }
  }

  /**
   * The index the permutation puts in slot k, or an index past every channel
   * when it has no slot k (the loop then never compares with it).
   */
  function Slot(p: seq<nat>, k: nat): nat {
    if k < |p| then p[k] else |p| + k
  }

  /**
   * The loop of the channel part of Init, on the lists and the channel map
   * it appends to: each channel is entered in the map, the one at index p[0]
   * goes to the active list, the one at p[1] to the message-check list, and
   * every other one to the inactive list. With a single channel, p[1] is
   * never read, since that channel is at p[0].
   */
  method Partition(channels: seq<Channel>, p: seq<nat>, active0: seq<int>, msgCheck0: seq<int>, inactive0: seq<int>, cmap0: map<int, Channel>)
    returns (active: seq<int>, msgCheck: seq<int>, inactive: seq<int>, cmap: map<int, Channel>)
    requires IsPerm(p, |channels|)
    ensures active == active0 + (if |channels| >= 1 then [channels[p[0]].id] else [])
    ensures msgCheck == msgCheck0 + (if |channels| >= 2 then [channels[p[1]].id] else [])
    ensures inactive == inactive0 + OthersIds(channels, Slot(p, 0), Slot(p, 1))
    ensures |inactive| == |inactive0| + |channels| - Min(|channels|, 2)
    ensures cmap == EnterChannels(cmap0, channels)
  {
    var a, b := Slot(p, 0), Slot(p, 1);
    assert a != b;
    OthersCount(channels, a, b);
    active, msgCheck, inactive, cmap := active0, msgCheck0, inactive0, cmap0;
    for i := 0 to |channels|
      invariant active == active0 + (if a < i then [channels[a].id] else [])
      invariant msgCheck == msgCheck0 + (if b < i then [channels[b].id] else [])
      invariant inactive == inactive0 + OthersIds(channels[..i], a, b)
      invariant cmap == EnterChannels(cmap0, channels[..i])
    {
      var c := channels[i];
      PartitionStep(channels, a, b, cmap0, i);
      cmap := cmap[c.id := c];
      if i == p[0] {
        active := active + [c.id];
      } else if i == p[1] {
        msgCheck := msgCheck + [c.id];
      } else {
        inactive := inactive + [c.id];
      }
    }
    assert channels[..|channels|] == channels;
  }

  /** Entering channel i: the map gets its id, and the inactive ids grow by it unless it is at a or b. */
  lemma PartitionStep(channels: seq<Channel>, a: nat, b: nat, cmap0: map<int, Channel>, i: nat)
    requires i < |channels|
    ensures OthersIds(channels[..i + 1], a, b) == OthersIds(channels[..i], a, b) + (if i == a || i == b then [] else [channels[i].id])
    ensures EnterChannels(cmap0, channels[..i + 1]) == EnterChannels(cmap0, channels[..i])[channels[i].id := channels[i]]
  {
    assert channels[..i + 1][..i] == channels[..i];
  }

  /** The user map after `userMap[u.Name] = u` for each user in turn: a later name wins. */
  function NameIndex(m: map<string, AppUser>, us: seq<AppUser>): map<string, AppUser>
    decreases |us|
  {
    if us == [] then m else NameIndex(m, us[..|us| - 1])[us[|us| - 1].name := us[|us| - 1]]
  }

  /** The user and channel maps Init builds: every dataset user's name, every channel's id, each channel under its own id when ids are distinct. */
  lemma InitMaps(dataUsers: seq<AppUser>, channels: seq<Channel>)
    ensures forall u :: u in dataUsers ==> u.name in NameIndex(map[], dataUsers)
    ensures forall id :: id in EnterChannels(map[], channels) <==> exists k :: 0 <= k < |channels| && channels[k].id == id
    ensures (forall i, j :: 0 <= i < j < |channels| ==> channels[i].id != channels[j].id) ==>
      forall k :: 0 <= k < |channels| ==> EnterChannels(map[], channels)[channels[k].id] == channels[k]
  {
    EnterChannelsKeys(map[], channels);
    if forall i, j :: 0 <= i < j < |channels| ==> channels[i].id != channels[j].id {
      EnterChannelsUnique(map[], channels);
    }
    forall u | u in dataUsers
      ensures u.name in NameIndex(map[], dataUsers)
    {
      NameIndexKeys(map[], dataUsers, u.name);
    }
  }

  /** Every name of the list is a key, and no other key is added. */
  lemma {:induction false} NameIndexKeys(m: map<string, AppUser>, us: seq<AppUser>, name: string)
    ensures name in NameIndex(m, us) <==> name in m || exists k :: 0 <= k < |us| && us[k].name == name
    decreases |us|
  {
    if us != [] {
      var n := |us| - 1;
      NameIndexKeys(m, us[..n], name);
      if exists k :: 0 <= k < n && us[..n][k].name == name {
        var k :| 0 <= k < n && us[..n][k].name == name;
        assert us[k].name == name;
      }
      if exists k :: 0 <= k < |us| && us[k].name == name {
        var k :| 0 <= k < |us| && us[k].name == name;
        if k < n {
          assert us[..n][k].name == name;
        }
      }
    }
  }

  /** A user whose name no later user repeats is the one found under it. */
  lemma {:induction false} NameIndexLast(m: map<string, AppUser>, us: seq<AppUser>, k: nat)
    requires k < |us|
    requires forall j :: k < j < |us| ==> us[j].name != us[k].name
    ensures us[k].name in NameIndex(m, us) && NameIndex(m, us)[us[k].name] == us[k]
    decreases |us|
  {
    var n := |us| - 1;
    if k < n {
      assert us[..n][k] == us[k];
      NameIndexLast(m, us[..n], k);
    }
  }

  /** The channel and text of x are already in the register. */
  predicate InRegister(msgMap: map<int, map<string, MessageInfo>>, x: MessageInfo) {
    x.channelId in msgMap && x.message in msgMap[x.channelId]
  }

  /** Two messages with the same channel and text: the register keeps one of them. */
  predicate SameKey(x: MessageInfo, y: MessageInfo) {
    x.channelId == y.channelId && x.message == y.message
  }

  /** None of the messages is in the register, and no two of them share a channel and text. */
  predicate Fresh(msgMap: map<int, map<string, MessageInfo>>, ms: seq<MessageInfo>) {
    && (forall i :: 0 <= i < |ms| ==> !InRegister(msgMap, ms[i]))
    && (forall i, j :: 0 <= i < j < |ms| ==> !SameKey(ms[i], ms[j]))
  }

  /** The register after entering each message in turn. */
  function RegisterAll(msgMap: map<int, map<string, MessageInfo>>, ms: seq<MessageInfo>): map<int, map<string, MessageInfo>>
    decreases |ms|
  {
    if ms == [] then msgMap else Registered(RegisterAll(msgMap, ms[..|ms| - 1]), ms[|ms| - 1])
  }

  /** The upper bounds after one more begun message per entry. */
  function RaiseAll(cnt: map<int, int>, ms: seq<MessageInfo>): map<int, int>
    decreases |ms|
  {
    if ms == [] then cnt else Raised(RaiseAll(cnt, ms[..|ms| - 1]), ms[|ms| - 1].channelId)
  }

  /** The lower bounds after one more completed message per complete entry. */
  function RaiseCompleted(cnt: map<int, int>, ms: seq<MessageInfo>): map<int, int>
    decreases |ms|
  {
    if ms == [] then cnt
    else
      var c := RaiseCompleted(cnt, ms[..|ms| - 1]);
      if ms[|ms| - 1].sendComplete then Raised(c, ms[|ms| - 1].channelId) else c
  }

  /** After registering ms, a message is in the register exactly when it was before or shares a key with one of ms. */
  lemma {:induction false} RegisterAllHas(msgMap: map<int, map<string, MessageInfo>>, ms: seq<MessageInfo>, x: MessageInfo)
    ensures InRegister(RegisterAll(msgMap, ms), x) <==> InRegister(msgMap, x) || exists k :: 0 <= k < |ms| && SameKey(ms[k], x)
    decreases |ms|
  {
    if ms != [] {
      var n := |ms| - 1;
      RegisterAllHas(msgMap, ms[..n], x);
      if exists k :: 0 <= k < n && SameKey(ms[..n][k], x) {
        var k :| 0 <= k < n && SameKey(ms[..n][k], x);
        assert SameKey(ms[k], x);
      }
      if exists k :: 0 <= k < |ms| && SameKey(ms[k], x) {
        var k :| 0 <= k < |ms| && SameKey(ms[k], x);
        if k < n {
          assert SameKey(ms[..n][k], x);
        }
      }
    }
  }

  /** A fresh list stays fresh with one more message that its register does not hold. */
  lemma FreshSnoc(msgMap: map<int, map<string, MessageInfo>>, ms: seq<MessageInfo>, i: nat)
    requires i < |ms| && Fresh(msgMap, ms[..i])
    requires !InRegister(RegisterAll(msgMap, ms[..i]), ms[i])
    ensures Fresh(msgMap, ms[..i + 1])
  {
    RegisterAllHas(msgMap, ms[..i], ms[i]);
    var p := ms[..i + 1];
    forall a, b | 0 <= a < b < |p|
      ensures !SameKey(p[a], p[b])
    {
      if b == i {
        assert ms[..i][a] == p[a];
      } else {
        assert ms[..i][a] == p[a] && ms[..i][b] == p[b];
      }
    }
    forall a | 0 <= a < |p|
      ensures !InRegister(msgMap, p[a])
    {
      if a < i {
        assert ms[..i][a] == p[a];
      }
    }
  }

  /** A message the register of the ones before it already holds makes the whole list not fresh. */
  lemma DuplicateNotFresh(msgMap: map<int, map<string, MessageInfo>>, ms: seq<MessageInfo>, i: nat)
    requires i < |ms| && InRegister(RegisterAll(msgMap, ms[..i]), ms[i])
    ensures !Fresh(msgMap, ms)
  {
    RegisterAllHas(msgMap, ms[..i], ms[i]);
    if !InRegister(msgMap, ms[i]) {
      var k :| 0 <= k < i && SameKey(ms[..i][k], ms[i]);
      assert ms[..i][k] == ms[k];
    }
  }

  class State {
    var users: seq<AppUser>
    var newUsers: seq<AppUser>
    var userMap: map<string, AppUser>
    /** The checker of each user, by number; numbers from `nextChecker` on are unused. */
    var checkerMap: map<AppUser, nat>
    var nextChecker: nat
    var channelMap: map<int, Channel>
    var activeChannelIds: seq<int>
    var inactiveChannelIds: seq<int>
    var msgCheckChannelIds: seq<int>
    var tmpChannelIds: seq<int>
    /** Sent messages by channel and text. */
    var msgMap: map<int, map<string, MessageInfo>>
    var msgCntMin: map<int, int>
    var msgCntMax: map<int, int>

    predicate Valid()
      reads this
    {
      && CountsMatch(msgMap, msgCntMin, msgCntMax)
      && (forall u :: u in checkerMap ==> checkerMap[u] < nextChecker)
    }

    constructor ()
      ensures Valid()
      ensures users == [] && newUsers == [] && userMap == map[] && checkerMap == map[] && channelMap == map[]
      ensures activeChannelIds == [] && inactiveChannelIds == [] && msgCheckChannelIds == [] && tmpChannelIds == []
      ensures msgMap == map[] && msgCntMin == map[] && msgCntMax == map[]
    {
      users := [];
      newUsers := [];
      userMap := map[];
      checkerMap := map[];
      nextChecker := 0;
      channelMap := map[];
      activeChannelIds := [];
      inactiveChannelIds := [];
      msgCheckChannelIds := [];
      tmpChannelIds := [];
      msgMap := map[];
      msgCntMin := map[];
      msgCntMax := map[];
    }

    /**
     * The channel part of Init: the channel at index p[0] becomes active, the
     * one at p[1] the message-check channel, every other one inactive.
     */
    method PartitionChannels(channels: seq<Channel>, p: seq<nat>)
      requires IsPerm(p, |channels|)
      modifies this
      ensures activeChannelIds == old(activeChannelIds) + (if |channels| >= 1 then [channels[p[0]].id] else [])
      ensures msgCheckChannelIds == old(msgCheckChannelIds) + (if |channels| >= 2 then [channels[p[1]].id] else [])
      ensures inactiveChannelIds == old(inactiveChannelIds) + OthersIds(channels, Slot(p, 0), Slot(p, 1))
      ensures |inactiveChannelIds| == |old(inactiveChannelIds)| + |channels| - Min(|channels|, 2)
      ensures channelMap == EnterChannels(old(channelMap), channels)
      ensures (Pools(), Checkers(), Register(), tmpChannelIds) == old((Pools(), Checkers(), Register(), tmpChannelIds))
    {
      activeChannelIds, msgCheckChannelIds, inactiveChannelIds, channelMap :=
        Partition(channels, p, activeChannelIds, msgCheckChannelIds, inactiveChannelIds, channelMap);
    }

    /**
     * Init: the dataset's users join the pools, the lookup maps start over,
     * the channels are partitioned by the permutation p, the user map indexes
     * the dataset's users by name, and every dataset message is registered.
     * `ok` is false exactly when two dataset messages share a channel and a
     * text, where the benchmark panics.
     */
    method Init(dataUsers: seq<AppUser>, dataNewUsers: seq<AppUser>, channels: seq<Channel>, messages: seq<MessageInfo>, p: seq<nat>)
      returns (ok: bool)
      requires Valid() && IsPerm(p, |channels|)
      modifies this
      ensures Valid()
      ensures users == old(users) + dataUsers && newUsers == old(newUsers) + dataNewUsers
      ensures userMap == NameIndex(map[], dataUsers)
      ensures forall u :: u in dataUsers ==> u.name in userMap
      ensures activeChannelIds == old(activeChannelIds) + (if |channels| >= 1 then [channels[p[0]].id] else [])
      ensures msgCheckChannelIds == old(msgCheckChannelIds) + (if |channels| >= 2 then [channels[p[1]].id] else [])
      ensures inactiveChannelIds == old(inactiveChannelIds) + OthersIds(channels, Slot(p, 0), Slot(p, 1))
      ensures |inactiveChannelIds| == |old(inactiveChannelIds)| + |channels| - Min(|channels|, 2)
      ensures channelMap == EnterChannels(map[], channels)
      ensures forall id :: id in channelMap <==> exists k :: 0 <= k < |channels| && channels[k].id == id
      ensures (forall i, j :: 0 <= i < j < |channels| ==> channels[i].id != channels[j].id) ==>
        forall k :: 0 <= k < |channels| ==> channelMap[channels[k].id] == channels[k]
      ensures ok <==> forall i, j :: 0 <= i < j < |messages| ==> !SameKey(messages[i], messages[j])
      ensures ok ==> Register() == (RegisterAll(map[], messages), RaiseCompleted(map[], messages), RaiseAll(map[], messages))
      ensures ok ==> forall x :: x in messages ==> x.channelId in msgMap && x.message in msgMap[x.channelId]
      ensures checkerMap == map[]
    {
      Reset(dataUsers, dataNewUsers);
      PartitionChannels(channels, p);
      IndexUsers(dataUsers);
      InitMaps(dataUsers, channels);
      ok := LoadMessages(messages);
    }

    /** The first part of Init: the pools grow by the dataset's users, and every map starts empty. */
    method Reset(dataUsers: seq<AppUser>, dataNewUsers: seq<AppUser>)
      modifies this
      ensures Valid()
      ensures Pools() == (old(users) + dataUsers, old(newUsers) + dataNewUsers, map[])
      ensures Checkers().0 == map[] && channelMap == map[]
      ensures Register() == (map[], map[], map[])
      ensures ChannelLists() == old(ChannelLists())
    {
      assert CountsMatch(map[], map[], map[]);
      users, newUsers, userMap, channelMap, checkerMap, msgMap, msgCntMin, msgCntMax :=
        users + dataUsers, newUsers + dataNewUsers, map[], map[], map[], map[], map[], map[];
    }

    /** The user-map part of Init: each dataset user is entered under its name, a later one replacing an earlier. */
    method IndexUsers(dataUsers: seq<AppUser>)
      modifies this
      ensures userMap == NameIndex(old(userMap), dataUsers)
      ensures (users, newUsers, channelMap) == old((users, newUsers, channelMap))
      ensures (ChannelLists(), Checkers(), Register()) == old((ChannelLists(), Checkers(), Register()))
    {
      for i := 0 to |dataUsers|
        invariant userMap == NameIndex(old(userMap), dataUsers[..i])
        invariant (users, newUsers, channelMap) == old((users, newUsers, channelMap))
        invariant (ChannelLists(), Checkers(), Register()) == old((ChannelLists(), Checkers(), Register()))
      {
        assert dataUsers[..i + 1][..i] == dataUsers[..i];
        userMap := userMap[dataUsers[i].name := dataUsers[i]];
      }
      assert dataUsers[..|dataUsers|] == dataUsers;
    }

    /**
     * The message part of Init: registers each message in turn, stopping at
     * the first one whose channel and text are already registered. It gets
     * through exactly when the messages are fresh, and then the register
     * and both bounds are those of all the messages entered one by one.
     */
    method LoadMessages(messages: seq<MessageInfo>) returns (ok: bool)
      requires Valid()
      modifies this
      ensures Valid()
      ensures ok <==> Fresh(old(msgMap), messages)
      ensures ok ==> Register() == (RegisterAll(old(msgMap), messages), RaiseCompleted(old(msgCntMin), messages), RaiseAll(old(msgCntMax), messages))
      ensures ok ==> forall x :: x in messages ==> x.channelId in msgMap && x.message in msgMap[x.channelId]
      ensures (Pools(), channelMap, ChannelLists(), Checkers()) == old((Pools(), channelMap, ChannelLists(), Checkers()))
    {
      for i := 0 to |messages|
        invariant Valid()
        invariant Fresh(old(msgMap), messages[..i])
        invariant Register() == (RegisterAll(old(msgMap), messages[..i]), RaiseCompleted(old(msgCntMin), messages[..i]), RaiseAll(old(msgCntMax), messages[..i]))
        invariant (Pools(), channelMap, ChannelLists(), Checkers()) == old((Pools(), channelMap, ChannelLists(), Checkers()))
      {
        var added := RegisterNext(old(msgMap), old(msgCntMin), old(msgCntMax), messages, i);
        if !added {
          return false;
        }
      }
      assert messages[..|messages|] == messages;
      forall x | x in messages
        ensures x.channelId in msgMap && x.message in msgMap[x.channelId]
      {
        RegisterAllHas(old(msgMap), messages, x);
        var k :| 0 <= k < |messages| && messages[k] == x;
        assert SameKey(messages[k], x);
      }
      ok := true;
    }

    /** One round of LoadMessages: messages[i] is registered, or found to be a duplicate. */
    method RegisterNext(ghost m0: map<int, map<string, MessageInfo>>, ghost min0: map<int, int>, ghost max0: map<int, int>,
                        messages: seq<MessageInfo>, i: nat)
      returns (added: bool)
      requires Valid() && i < |messages| && Fresh(m0, messages[..i])
      requires Register() == (RegisterAll(m0, messages[..i]), RaiseCompleted(min0, messages[..i]), RaiseAll(max0, messages[..i]))
      modifies this
      ensures Valid()
      ensures !added ==> !Fresh(m0, messages)
      ensures added ==> Fresh(m0, messages[..i + 1])
      ensures added ==> Register() == (RegisterAll(m0, messages[..i + 1]), RaiseCompleted(min0, messages[..i + 1]), RaiseAll(max0, messages[..i + 1]))
      ensures (Pools(), channelMap, ChannelLists(), Checkers()) == old((Pools(), channelMap, ChannelLists(), Checkers()))
    {
      assert messages[..i + 1][..i] == messages[..i];
      added := AddSendMessage(messages[i]);
      if !added {
        DuplicateNotFresh(m0, messages, i);
      } else {
        FreshSnoc(m0, messages, i);
      }
    }

    /**
     * DistributeTmpChannelIDs: the added channels, in the order of the
     * permutation, go to the active list until it holds 5, then to the
     * message-check list until it holds 2, then to the inactive list; the
     * tmp list itself is kept.
     */
    method DistributeTmpChannelIds(perm: seq<nat>)
      requires Valid() && IsPerm(perm, |tmpChannelIds|)
      modifies this
      ensures Valid()
      ensures (activeChannelIds, msgCheckChannelIds, inactiveChannelIds) ==
        PlaceAll((old(activeChannelIds), old(msgCheckChannelIds), old(inactiveChannelIds)), Permuted(old(tmpChannelIds), perm))
      ensures (tmpChannelIds, channelMap, Pools(), Checkers(), Register()) == old((tmpChannelIds, channelMap, Pools(), Checkers(), Register()))
      ensures TotalChannelCount() == old(TotalChannelCount()) + |tmpChannelIds|
    {
      ghost var ids := Permuted(tmpChannelIds, perm);
      for j := 0 to |perm|
        invariant (activeChannelIds, msgCheckChannelIds, inactiveChannelIds) ==
          PlaceAll((old(activeChannelIds), old(msgCheckChannelIds), old(inactiveChannelIds)), ids[..j])
        invariant (tmpChannelIds, channelMap, Pools(), Checkers(), Register()) == old((tmpChannelIds, channelMap, Pools(), Checkers(), Register()))
      {
        var chanId := tmpChannelIds[perm[j]];
        assert ids[..j + 1] == ids[..j] + [chanId];
        if |activeChannelIds| < 5 {
          activeChannelIds := activeChannelIds + [chanId];
        } else if |msgCheckChannelIds| < 2 {
          msgCheckChannelIds := msgCheckChannelIds + [chanId];
        } else {
          inactiveChannelIds := inactiveChannelIds + [chanId];
        }
      }
      assert ids[..|perm|] == ids;
      PlaceAllCount((old(activeChannelIds), old(msgCheckChannelIds), old(inactiveChannelIds)), ids);
    }

    /** getCheckerLocked: the user's checker, made (with a new number) on first use. */
    method GetCheckerLocked(u: AppUser) returns (checker: nat)
      requires Valid()
      modifies this
      ensures Valid()
      ensures u in old(checkerMap) ==> checker == old(checkerMap)[u] && Checkers() == old(Checkers())
      ensures u !in old(checkerMap) ==> checker == old(nextChecker) && checkerMap == old(checkerMap)[u := checker]
      ensures u !in old(checkerMap) ==> forall v :: v in old(checkerMap) ==> old(checkerMap)[v] != checker
      ensures u in checkerMap && checkerMap[u] == checker
      ensures (Pools(), channelMap, ChannelLists(), Register()) == old((Pools(), channelMap, ChannelLists(), Register()))
    {
      if u in checkerMap {
        return checkerMap[u];
      }
      checker := nextChecker;
      checkerMap := checkerMap[u := checker];
      nextChecker := nextChecker + 1;
    }

    /**
     * PopRandomUser: with no user, nothing; otherwise the user at the drawn
     * index r is taken out by swap-remove and returned with its checker.
     */
    method PopRandomUser(r: nat) returns (u: Option<AppUser>, checker: nat)
      requires Valid()
      requires users != [] ==> r < |users|
      modifies this
      ensures Valid()
      ensures old(users) == [] ==> u.None? && users == [] && checkerMap == old(checkerMap)
      ensures old(users) != [] ==> u == Some(old(users)[r]) && users == SwapRemove(old(users), r)
      ensures old(users) != [] ==> u.value in checkerMap && checkerMap[u.value] == checker
      ensures old(users) != [] ==> multiset(users) + multiset{u.value} == multiset(old(users))
      ensures newUsers == old(newUsers) && userMap == old(userMap) && channelMap == old(channelMap)
      ensures Register() == old(Register())
    {
      var n := |users|;
      if n == 0 {
        return None, 0;
      }
      var user := users[r];
      users := users[r := users[n - 1]];
      users := users[..n - 1];
      SwapRemoveKeepsRest(old(users), r);
      checker := GetCheckerLocked(user);
      u := Some(user);
    }

    /** popNewUserLocked: the last new user, taken off the list, with its checker. */
    method PopNewUserLocked() returns (u: Option<AppUser>, checker: nat)
      requires Valid()
      modifies this
      ensures Valid()
      ensures old(newUsers) == [] ==> u.None? && newUsers == [] && checkerMap == old(checkerMap)
      ensures old(newUsers) != [] ==> u == Some(old(newUsers)[|old(newUsers)| - 1])
      ensures old(newUsers) != [] ==> newUsers + [u.value] == old(newUsers)
      ensures old(newUsers) != [] ==> u.value in checkerMap && checkerMap[u.value] == checker
      ensures users == old(users) && userMap == old(userMap) && channelMap == old(channelMap)
      ensures Register() == old(Register())
    {
      var n := |newUsers|;
      if n == 0 {
        return None, 0;
      }
      var user := newUsers[n - 1];
      newUsers := newUsers[..n - 1];
      checker := GetCheckerLocked(user);
      u := Some(user);
    }

    /** PushUser: the user goes back at the end of the pool and is findable by name. */
    method PushUser(u: AppUser)
      requires Valid()
      modifies this
      ensures Valid()
      ensures users == old(users) + [u] && userMap == old(userMap)[u.name := u]
      ensures newUsers == old(newUsers) && checkerMap == old(checkerMap) && channelMap == old(channelMap)
      ensures Register() == old(Register())
    {
      userMap := userMap[u.name := u];
      users := users + [u];
    }

    /** The user pools and the name index. */
    function Pools(): (seq<AppUser>, seq<AppUser>, map<string, AppUser>)
      reads this
    {
      (users, newUsers, userMap)
    }

    /** The checkers handed out so far, and the next checker number. */
    function Checkers(): (map<AppUser, nat>, nat)
      reads this
    {
      (checkerMap, nextChecker)
    }

    /** The message register and its two bounds. */
    function Register(): (map<int, map<string, MessageInfo>>, map<int, int>, map<int, int>)
      reads this
    {
      (msgMap, msgCntMin, msgCntMax)
    }

    /** The active, message-check, inactive and tmp channel lists. */
    function ChannelLists(): (seq<int>, seq<int>, seq<int>, seq<int>)
      reads this
    {
      (activeChannelIds, msgCheckChannelIds, inactiveChannelIds, tmpChannelIds)
    }

    /** TotalChannelCount: the ids in the three lists and the tmp list together. */
    function TotalChannelCount(): (n: nat)
      reads this
      ensures n == 0 <==> activeChannelIds == [] && inactiveChannelIds == [] && msgCheckChannelIds == [] && tmpChannelIds == []
      ensures n >= |tmpChannelIds|
    {
      |activeChannelIds| + |inactiveChannelIds| + |msgCheckChannelIds| + |tmpChannelIds|
    }

    /** AddChannel: a channel the benchmark created, waiting in the tmp list. */
    method AddChannel(id: int, c: Channel)
      requires Valid()
      modifies this
      ensures Valid()
      ensures channelMap == old(channelMap)[id := c] && tmpChannelIds == old(tmpChannelIds) + [id]
      ensures activeChannelIds == old(activeChannelIds) && inactiveChannelIds == old(inactiveChannelIds)
      ensures msgCheckChannelIds == old(msgCheckChannelIds)
      ensures users == old(users) && newUsers == old(newUsers) && checkerMap == old(checkerMap)
      ensures Register() == old(Register())
      ensures TotalChannelCount() == old(TotalChannelCount()) + 1
    {
      channelMap := channelMap[id := c];
      tmpChannelIds := tmpChannelIds + [id];
    }

    /**
     * AddSendMessage: a text already sent to the channel is refused and
     * nothing changes; otherwise it is registered, the upper bound grows by
     * one, and the lower bound too when the message is already complete.
     */
    method AddSendMessage(x: MessageInfo) returns (ok: bool)
      requires Valid()
      modifies this
      ensures Valid()
      ensures ok <==> !(x.channelId in old(msgMap) && x.message in old(msgMap)[x.channelId])
      ensures !ok ==> Register() == old(Register())
      ensures ok ==> x.channelId in msgMap && x.message in msgMap[x.channelId] && msgMap[x.channelId][x.message] == x
      ensures ok ==> Register() == (Registered(old(msgMap), x),
        if x.sendComplete then Raised(old(msgCntMin), x.channelId) else old(msgCntMin), Raised(old(msgCntMax), x.channelId))
      ensures ok ==> Get(msgCntMax, x.channelId) == Get(old(msgCntMax), x.channelId) + 1
      ensures ok ==> Get(msgCntMin, x.channelId) == Get(old(msgCntMin), x.channelId) + (if x.sendComplete then 1 else 0)
      ensures forall c :: c != x.channelId ==> Get(msgCntMax, c) == Get(old(msgCntMax), c) && Get(msgCntMin, c) == Get(old(msgCntMin), c)
      ensures forall c, t :: c in old(msgMap) && t in old(msgMap)[c] ==> c in msgMap && t in msgMap[c] && msgMap[c][t] == old(msgMap)[c][t]
      ensures (Pools(), channelMap, ChannelLists(), Checkers()) == old((Pools(), channelMap, ChannelLists(), Checkers()))
    {
      var ch := x.channelId;
      if ch in msgMap && x.message in msgMap[ch] {
        return false;
      }
      CountsAfterAdd(msgMap, msgCntMin, msgCntMax, x);
      RegisteredKeeps(msgMap, x);
      RaisedGet(msgCntMax, ch);
      RaisedGet(msgCntMin, ch);
      msgMap, msgCntMin, msgCntMax :=
        Registered(msgMap, x), if x.sendComplete then Raised(msgCntMin, ch) else msgCntMin, Raised(msgCntMax, ch);
      ok := true;
    }

    /**
     * The callback AddSendMessage hands out, run when the POST returns:
     * the lower bound grows by one the first time only.
     */
    method CompleteSend(ch: int, text: string)
      requires Valid() && ch in msgMap && text in msgMap[ch]
      modifies this
      ensures Valid()
      ensures old(msgMap)[ch][text].sendComplete ==> msgCntMin == old(msgCntMin) && msgMap == old(msgMap)
      ensures !old(msgMap)[ch][text].sendComplete ==>
        && Get(msgCntMin, ch) == Get(old(msgCntMin), ch) + 1
        && msgMap == old(msgMap)[ch := old(msgMap)[ch][text := old(msgMap)[ch][text].(sendComplete := true)]]
      ensures forall c :: c != ch ==> Get(msgCntMin, c) == Get(old(msgCntMin), c)
      ensures msgCntMax == old(msgCntMax)
      ensures (Pools(), channelMap, ChannelLists(), Checkers()) == old((Pools(), channelMap, ChannelLists(), Checkers()))
    {
      var x := msgMap[ch][text];
      if !x.sendComplete {
        var m := msgMap[ch];
        var m' := m[text := x.(sendComplete := true)];
        CountsAfterComplete(msgMap, msgCntMin, msgCntMax, ch, text);
        msgCntMin := msgCntMin[ch := Get(msgCntMin, ch) + 1];
        msgMap := msgMap[ch := m'];
      }
    }

    /**
     * ValidateJsonMessage: the message passes exactly when it is valid
     * against the register as it stands, and a passing message that the
     * benchmark itself began sending less than 200 ms earlier counts one
     * "message-bonus". `sinceBegin` is the time since the message's
     * SendBeginTime in milliseconds, None while that time is unset (a
     * dataset message).
     */
    method ValidateJsonMessage(chanId: int, msg: JsonMessage, sinceBegin: Option<int>, counter: Counter.Counter)
      returns (ok: bool)
      modifies counter
      ensures ok <==> JsonMessageValid(msgMap, chanId, msg)
      ensures ok && sinceBegin.Some? && sinceBegin.value < MessageBonusMs ==>
        counter.cntMap == old(counter.cntMap)[MessageBonus := Counter.CountOf(old(counter.cntMap), MessageBonus) + 1]
      ensures !(ok && sinceBegin.Some? && sinceBegin.value < MessageBonusMs) ==> counter.cntMap == old(counter.cntMap)
    {
      ok := JsonMessageValid(msgMap, chanId, msg);
      if ok && sinceBegin.Some? && sinceBegin.value < MessageBonusMs {
        counter.IncKey(MessageBonus);
      }
    }

    /** SnapshotMessageCount: copies of both bounds; each lower bound is at most its upper bound. */
    function SnapshotMessageCount(): (r: (map<int, int>, map<int, int>))
      reads this
      requires Valid()
      ensures r == (msgCntMin, msgCntMax)
      ensures forall c :: 0 <= Get(r.0, c) <= Get(r.1, c)
    {
      forall c ensures 0 <= Get(msgCntMin, c) <= Get(msgCntMax, c) {
        MinAtMostMax(msgMap, msgCntMin, msgCntMax, c);
      }
      (msgCntMin, msgCntMax)
    }
  }
}
