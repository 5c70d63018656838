/**
 * The benchmark driver (bench/src/cmd/sample.go): the weighted list of load
 * functions, the channel set-up before the load, the error policy of the
 * validation pass, the level-up decision taken every second, the request
 * count summary and the final score.
 */
module Sample {
  import opened Base
  import opened Text
  import Counter
  import Checker
  import Structure

  // ---------------------------------------------------------------------------
  // Load functions
  // ---------------------------------------------------------------------------

  /** The load scenarios the driver picks from. */
  datatype LoadFunc = LoadProfile | LoadRegister | LoadGetChannel | LoadGetHistory

  /** n copies of f. */
  function Copies(f: LoadFunc, n: nat): (s: seq<LoadFunc>)
    ensures |s| == n
  {
    if n == 0 then [] else Copies(f, n - 1) + [f]
  }

  /** One more copy at the end. */
  lemma AppendOneCopy(s: seq<LoadFunc>, f: LoadFunc, n: nat)
    ensures s + Copies(f, n + 1) == (s + Copies(f, n)) + [f]
  {
  }

  /** n copies of f hold f n times and nothing else. */
  lemma {:induction false} CopiesCount(f: LoadFunc, n: nat)
    ensures multiset(Copies(f, n)) == multiset{}[f := n]
  {
    if n > 0 {
      CopiesCount(f, n - 1);
    }
  }

  /** Appending n copies of f raises the multiplicity of f by n and of nothing else. */
  lemma AppendCopies(s: seq<LoadFunc>, f: LoadFunc, n: nat)
    ensures multiset(s + Copies(f, n))[f] == multiset(s)[f] + n
    ensures forall g :: g != f ==> multiset(s + Copies(f, n))[g] == multiset(s)[g]
  {
    CopiesCount(f, n);
    assert multiset(s + Copies(f, n)) == multiset(s) + multiset(Copies(f, n));
  }

  /** The pool main registers holds each scenario exactly once, so each is drawn equally often. */
  lemma RegisteredOnceEach(s: seq<LoadFunc>)
    ensures forall g :: multiset(s + [LoadProfile, LoadRegister, LoadGetChannel, LoadGetHistory])[g] == multiset(s)[g] + 1
  {
    var all := [LoadProfile, LoadRegister, LoadGetChannel, LoadGetHistory];
    assert multiset(s + all) == multiset(s) + multiset(all);
    assert multiset(all) == multiset{LoadProfile, LoadRegister, LoadGetChannel, LoadGetHistory};
    forall g
      ensures multiset(all)[g] == 1
    {
      match g
      case LoadProfile =>
      case LoadRegister =>
      case LoadGetChannel =>
      case LoadGetHistory =>
    }
  }

  /** The weighted pool of load functions; a uniform draw from it picks each in proportion to its weight. */
  class Loader {
    var loadFuncs: seq<LoadFunc>

    constructor ()
      ensures loadFuncs == []
    {
      loadFuncs := [];
    }

    /** addLoadFunc: f is appended `weight` times (not at all for a weight of 0 or less). */
    method AddLoadFunc(weight: int, f: LoadFunc)
      modifies this
      ensures loadFuncs == old(loadFuncs) + Copies(f, Max(weight, 0))
    {
      ghost var before := loadFuncs;
      var i := 0;
      while i < weight
        invariant 0 <= i && (weight <= 0 ==> i == 0) && (0 < weight ==> i <= weight)
        invariant loadFuncs == before + Copies(f, i)
      {
        AppendOneCopy(before, f, i);
        loadFuncs := loadFuncs + [f];
        i := i + 1;
      }
    }

    /** The registrations of main: each scenario once, so each is drawn equally often. */
    method RegisterLoadFuncs()
      modifies this
      ensures loadFuncs == old(loadFuncs) + [LoadProfile, LoadRegister, LoadGetChannel, LoadGetHistory]
    {
      assert forall f :: Copies(f, Max(1, 0)) == [f];
      AddLoadFunc(1, LoadProfile);
      AddLoadFunc(1, LoadRegister);
      AddLoadFunc(1, LoadGetChannel);
      AddLoadFunc(1, LoadGetHistory);
    }

    /** choiceLoadFunc: the entry the draw points at (rand.Intn panics on an empty pool). */
    function ChoiceLoadFunc(draw: nat): (f: LoadFunc)
      reads this
      requires draw < |loadFuncs|
      ensures f in loadFuncs
    {
      loadFuncs[draw]
    }
  }

  // ---------------------------------------------------------------------------
  // preTest: channels before the load
  // ---------------------------------------------------------------------------

  /** The channel count preTest waits for. */
  const MaxChannelCount := 100

  /**
   * The channel loop of preTest: channels are added one at a time (answer(i)
   * is what the i-th POST /add_channel check gives back: a new channel, or
   * nothing when the benchmark's check fails) until the state holds 100; a failing check
   * ends preTest.
   */
  method PreTestChannels(state: Structure.State, answer: nat -> Option<(int, Structure.Channel)>) returns (ok: bool, added: nat)
    requires state.Valid()
    modifies state
    ensures state.Valid()
    ensures state.TotalChannelCount() == old(state.TotalChannelCount()) + added
    ensures ok ==> state.TotalChannelCount() == Max(old(state.TotalChannelCount()), MaxChannelCount)
    ensures !ok ==> state.TotalChannelCount() < MaxChannelCount && answer(added).None?
    ensures forall i :: 0 <= i < added ==> answer(i).Some?
    ensures |state.tmpChannelIds| == |old(state.tmpChannelIds)| + added
    ensures state.tmpChannelIds[..|old(state.tmpChannelIds)|] == old(state.tmpChannelIds)
    ensures forall i :: 0 <= i < added ==> state.tmpChannelIds[|old(state.tmpChannelIds)| + i] == answer(i).value.0
    ensures state.activeChannelIds == old(state.activeChannelIds) && state.inactiveChannelIds == old(state.inactiveChannelIds)
    ensures state.msgCheckChannelIds == old(state.msgCheckChannelIds)
  {
    ok := true;
    added := 0;
    while state.TotalChannelCount() < MaxChannelCount
      invariant state.Valid()
      invariant state.TotalChannelCount() == old(state.TotalChannelCount()) + added
      invariant added == 0 || state.TotalChannelCount() <= MaxChannelCount
      invariant forall i :: 0 <= i < added ==> answer(i).Some?
      invariant |state.tmpChannelIds| == |old(state.tmpChannelIds)| + added
      invariant state.tmpChannelIds[..|old(state.tmpChannelIds)|] == old(state.tmpChannelIds)
      invariant forall i :: 0 <= i < added ==> state.tmpChannelIds[|old(state.tmpChannelIds)| + i] == answer(i).value.0
      invariant state.activeChannelIds == old(state.activeChannelIds) && state.inactiveChannelIds == old(state.inactiveChannelIds)
      invariant state.msgCheckChannelIds == old(state.msgCheckChannelIds)
      decreases MaxChannelCount - state.TotalChannelCount()
    {
      var a := answer(added);
      if a.None? {
        return false, added;
      }
      state.AddChannel(a.value.0, a.value.1);
      added := added + 1;
    }
  }

  // ---------------------------------------------------------------------------
  // validationMain
  // ---------------------------------------------------------------------------

  /** The number of validation checks. */
  const CheckCount := 8

  /**
   * The order validationMain runs its checks in, as written: the loop ranges
   * over rand.Perm(8) with a single variable, which takes the indices of the
   * permutation, not its values.
   */
  function ValidationOrder(perm: seq<nat>): seq<nat> {
    seq(|perm|, i => i)
  }

  /** The order the drawn permutation evidently stands for: its values. */
  function IntendedValidationOrder(perm: seq<nat>): seq<nat> {
    perm
  }

  /** As written, every drawn permutation gives the same order: 0, 1, ..., 7. */
  lemma ValidationOrderIsFixed(perm: seq<nat>)
    requires Structure.IsPerm(perm, CheckCount)
    ensures ValidationOrder(perm) == [0, 1, 2, 3, 4, 5, 6, 7]
  {
  }

  /** The reversed permutation, which rand.Perm can draw, is not the order the checks run in. */
  lemma ValidationOrderIgnoresDraw()
    ensures Structure.IsPerm([7, 6, 5, 4, 3, 2, 1, 0], CheckCount)
    ensures ValidationOrder([7, 6, 5, 4, 3, 2, 1, 0]) != IntendedValidationOrder([7, 6, 5, 4, 3, 2, 1, 0])
  {
    assert ValidationOrder([7, 6, 5, 4, 3, 2, 1, 0])[0] == 0;
  }

  /** In the intended order any of the eight checks can come first: some permutation draws it first. */
  lemma IntendedValidationOrderCanStartAnywhere(c: nat) returns (perm: seq<nat>)
    requires c < CheckCount
    ensures Structure.IsPerm(perm, CheckCount)
    ensures IntendedValidationOrder(perm)[0] == c
  {
    perm := seq(CheckCount, i => if i == 0 then c else if i == c then 0 else i);
    assert forall i :: 0 <= i < CheckCount ==> perm[i] == if i == 0 then c else if i == c then 0 else i;
  }

  /** An error that stops validationMain: a checker error wrapping a fatal one. */
  predicate Fatal(e: Option<Checker.Err>) {
    e.Some? && e.value.CheckerError? && Checker.IsFatal(e.value)
  }

  /**
   * validationMain's loop over the checks in `order` (outcome[c] is what
   * check c returns; None for success). A cancelled context, first seen
   * before step cancelledAt, ends the pass without an error; a fatal checker
   * error ends it with that error; any other error only pauses it.
   */
  method ValidationMain(order: seq<nat>, outcome: seq<Option<Checker.Err>>, cancelledAt: nat) returns (err: Option<Checker.Err>, ran: nat)
    requires forall i :: 0 <= i < |order| ==> order[i] < |outcome|
    ensures ran <= |order| && ran <= cancelledAt
    ensures err.Some? ==> 0 < ran && err == outcome[order[ran - 1]] && Fatal(err)
    ensures err.None? ==> ran == Min(|order|, cancelledAt)
    ensures forall j :: 0 <= j < ran && (err.None? || j < ran - 1) ==> !Fatal(outcome[order[j]])
  {
    ran := 0;
    while ran < |order|
      invariant ran <= |order|
      invariant ran <= cancelledAt
      invariant forall j :: 0 <= j < ran ==> !Fatal(outcome[order[j]])
    {
      if ran == cancelledAt {
        return None, ran;
      }
      var e := outcome[order[ran]];
      var isFatal := false;
      if e.Some? && e.value.CheckerError? {
        isFatal := Checker.IsFatal(e.value);
      }
      ran := ran + 1;
      if e.Some? && isFatal {
        return e, ran;
      }
    }
    err := None;
  }

  // ---------------------------------------------------------------------------
  // The level-up decision, once a second during the load
  // ---------------------------------------------------------------------------

  /** How long, in milliseconds, an error or a slow response blocks the level-up. */
  const RecentMs := 5000

  datatype LevelUp = LevelUpDisabled | BlockedByError | BlockedBySlowPath | LevelRaised

  /** An error or slow response at time t counts as recent at time now. */
  predicate Recent(t: int, now: int) {
    now - t < RecentMs
  }

  /**
   * benchmarkMain's tick: nothing with level-up disabled; otherwise a recent
   * error blocks, then a recent slow path blocks, and only then the level rises.
   */
  function LevelUpDecision(noLevelup: bool, lastErr: Option<(Checker.Err, int)>, slowPath: string, slowTime: int, now: int): (d: LevelUp)
    ensures d == LevelRaised <==>
      !noLevelup && !(lastErr.Some? && Recent(lastErr.value.1, now)) && !(slowPath != "" && Recent(slowTime, now))
    ensures d == BlockedByError <==> !noLevelup && lastErr.Some? && Recent(lastErr.value.1, now)
    ensures d == BlockedBySlowPath ==> slowPath != "" && Recent(slowTime, now)
    ensures d == LevelUpDisabled <==> noLevelup
  {
    if noLevelup then LevelUpDisabled
    else if lastErr.Some? && Recent(lastErr.value.1, now) then BlockedByError
    else if slowPath != "" && Recent(slowTime, now) then BlockedBySlowPath
    else LevelRaised
  }

  /** One tick: the decision from the error log, and "load-level-up" counted when the level rises. */
  method LevelUpTick(errorLog: Checker.ErrorLog, counter: Counter.Counter, noLevelup: bool, now: int) returns (d: LevelUp)
    requires errorLog.Valid()
    modifies counter
    ensures d == LevelUpDecision(noLevelup, errorLog.GetLastCheckerError(), errorLog.lastSlowPath, errorLog.lastSlowTime, now)
    ensures d == LevelRaised ==> counter.cntMap == old(counter.cntMap)["load-level-up" := Counter.CountOf(old(counter.cntMap), "load-level-up") + 1]
    ensures d != LevelRaised ==> counter.cntMap == old(counter.cntMap)
  {
    d := LevelUpDecision(noLevelup, errorLog.GetLastCheckerError(), errorLog.lastSlowPath, errorLog.lastSlowTime, now);
    if d == LevelRaised {
      counter.IncKey("load-level-up");
    }
  }

  /** Once an error is in the log, no level-up happens for the next five seconds, whatever the slow path. */
  lemma ErrorBlocksLevelUp(e: Checker.Err, t: int, slowPath: string, slowTime: int, now: int)
    requires now - t < RecentMs
    ensures LevelUpDecision(false, Some((e, t)), slowPath, slowTime, now) == BlockedByError
  {
  }

  // ---------------------------------------------------------------------------
  // printCounterSummary
  // ---------------------------------------------------------------------------

  /** The summary line a counter key is added to: the first matching path prefix, then the skipped icons. */
  function Bucket(key: string): string {
    var k :=
      if HasPrefix(key, "GET|/history/") then "GET|/history/*"
      else if HasPrefix(key, "GET|/message?") then "GET|/message?*"
      else if HasPrefix(key, "GET|/icons/") then "GET|/icons/*"
      else if HasPrefix(key, "GET|/channel/") then "GET|/channel/*"
      else if HasPrefix(key, "GET|/profile/") then "GET|/profile/*"
      else key;
    if HasPrefix(k, "SKIP|/icons/") then "SKIP|/icons/*" else k
  }

  /** s does not start with p when they differ at some position of p. */
  lemma NotPrefixAt(s: string, p: string, i: nat)
    requires i < |p| && i < |s| && s[i] != p[i]
    ensures !HasPrefix(s, p)
  {
  }

  /** The buckets of the GET rules. */
  const GetBuckets: set<string> := {"GET|/history/*", "GET|/message?*", "GET|/icons/*", "GET|/channel/*", "GET|/profile/*"}

  /** A bucket name is its own bucket, so bucketing twice changes nothing. */
  lemma BucketIdempotent(key: string)
    ensures Bucket(Bucket(key)) == Bucket(key)
  {
    var b := Bucket(key);
    if b != key {
      BucketNameIsFixed(b);
    }
  }

  /** Every bucket name falls in its own bucket. */
  lemma BucketNameIsFixed(b: string)
    requires b in GetBuckets || b == "SKIP|/icons/*"
    ensures Bucket(b) == b
  {
    if b == "SKIP|/icons/*" {
      NotPrefixAt(b, "GET|/history/", 0);
      NotPrefixAt(b, "GET|/message?", 0);
      NotPrefixAt(b, "GET|/icons/", 0);
      NotPrefixAt(b, "GET|/channel/", 0);
      NotPrefixAt(b, "GET|/profile/", 0);
      assert HasPrefix(b, "SKIP|/icons/");
    } else {
      NotPrefixAt(b, "SKIP|/icons/", 0);
      if b == "GET|/history/*" {
        assert HasPrefix(b, "GET|/history/");
      } else {
        NotPrefixAt(b, "GET|/history/", 5);
        if b == "GET|/message?*" {
          assert HasPrefix(b, "GET|/message?");
        } else {
          NotPrefixAt(b, "GET|/message?", 5);
          if b == "GET|/icons/*" {
            assert HasPrefix(b, "GET|/icons/");
          } else {
            NotPrefixAt(b, "GET|/icons/", 5);
            if b == "GET|/channel/*" {
              assert HasPrefix(b, "GET|/channel/");
            } else {
              NotPrefixAt(b, "GET|/channel/", 5);
              assert HasPrefix(b, "GET|/profile/");
            }
          }
        }
      }
    }
  }

  /** Selects the keys summed into bucket b. */
  function BucketSel(b: string): string -> bool {
    k => Bucket(k) == b
  }

  /** The history bucket is exactly the keys starting with "GET|/history/". */
  lemma HistoryBucketIsPrefix(key: string)
    ensures Bucket(key) == "GET|/history/*" <==> HasPrefix(key, "GET|/history/")
  {
    var h := "GET|/history/*";
    if HasPrefix(key, "GET|/history/") {
      NotPrefixAt(h, "SKIP|/icons/", 0);
    } else if HasPrefix(key, "GET|/message?") || HasPrefix(key, "GET|/icons/") || HasPrefix(key, "GET|/channel/") || HasPrefix(key, "GET|/profile/") {
      var k := if HasPrefix(key, "GET|/message?") then "GET|/message?*"
        else if HasPrefix(key, "GET|/icons/") then "GET|/icons/*"
        else if HasPrefix(key, "GET|/channel/") then "GET|/channel/*"
        else "GET|/profile/*";
      NotPrefixAt(k, "SKIP|/icons/", 0);
      assert Bucket(key) == k;
      assert k[5] != h[5];
    } else if HasPrefix(key, "SKIP|/icons/") {
      assert Bucket(key)[0] != h[0];
    } else {
      assert Bucket(key) == key;
      if key == h {
        assert HasPrefix(key, "GET|/history/");
      }
    }
  }

  /** The total of the history bucket equals the counter's own sum over the prefix "GET|/history/". */
  lemma HistoryTotalIsPrefixSum(counts: map<string, int>)
    ensures Counter.SumWhere(counts, counts.Keys, BucketSel("GET|/history/*")) == Counter.SumPrefixOf(counts, "GET|/history/")
  {
    forall k | k in counts
      ensures BucketSel("GET|/history/*")(k) == Counter.PrefixSel("GET|/history/")(k)
    {
      HistoryBucketIsPrefix(k);
    }
    Counter.SumWhereSame(counts, counts, counts.Keys, BucketSel("GET|/history/*"), Counter.PrefixSel("GET|/history/"));
  }

  /** Adding one more key to the keys summed so far adds its count to its own bucket only. */
  lemma SummaryStep(counts: map<string, int>, done: set<string>, k: string, b: string)
    requires done <= counts.Keys && k in counts && k !in done
    ensures Counter.SumWhere(counts, done + {k}, BucketSel(b)) ==
      Counter.SumWhere(counts, done, BucketSel(b)) + (if Bucket(k) == b then counts[k] else 0)
  {
    assert (done + {k}) - {k} == done;
    Counter.SumWhereRemove(counts, done + {k}, BucketSel(b), k);
  }

  /** The buckets of a set of keys. */
  function BucketsOf(keys: set<string>): set<string> {
    set k | k in keys :: Bucket(k)
  }

  /** totals holds, for each bucket of the keys in `done`, the sum of their counts. */
  ghost predicate Totaled(counts: map<string, int>, done: set<string>, totals: map<string, int>)
    requires done <= counts.Keys
  {
    totals.Keys == BucketsOf(done) && SumsRight(counts, done, totals)
  }

  /** Each entry of totals is the sum of the counts of the keys in `done` that fall in its bucket. */
  ghost predicate SumsRight(counts: map<string, int>, done: set<string>, totals: map<string, int>)
    requires done <= counts.Keys
  {
    forall b :: b in totals ==> totals[b] == Counter.SumWhere(counts, done, BucketSel(b))
  }

  /** Adding key k's count to its bucket keeps the totals right for one more key. */
  lemma TotaledAdd(counts: map<string, int>, done: set<string>, totals: map<string, int>, k: string)
    requires done <= counts.Keys && k in counts && k !in done
    requires Totaled(counts, done, totals)
    ensures Totaled(counts, done + {k}, totals[Bucket(k) := Counter.CountOf(totals, Bucket(k)) + counts[k]])
  {
    var b := Bucket(k);
    if b !in totals {
      UnseenBucketIsEmpty(counts, done, b);
    }
    SumsAdd(counts, done, totals, k);
    BucketsOfAdd(done, k);
  }

  /** The sums stay right when key k's count is added to its bucket. */
  lemma SumsAdd(counts: map<string, int>, done: set<string>, totals: map<string, int>, k: string)
    requires done <= counts.Keys && k in counts && k !in done
    requires SumsRight(counts, done, totals)
    requires Bucket(k) !in totals ==> Counter.SumWhere(counts, done, BucketSel(Bucket(k))) == 0
    ensures SumsRight(counts, done + {k}, totals[Bucket(k) := Counter.CountOf(totals, Bucket(k)) + counts[k]])
  {
    var totals' := totals[Bucket(k) := Counter.CountOf(totals, Bucket(k)) + counts[k]];
    forall c | c in totals'
      ensures totals'[c] == Counter.SumWhere(counts, done + {k}, BucketSel(c))
    {
      SummaryStep(counts, done, k, c);
    }
  }

  /** A bucket no key of `done` falls in has a total of 0 so far. */
  lemma UnseenBucketIsEmpty(counts: map<string, int>, done: set<string>, b: string)
    requires done <= counts.Keys && b !in BucketsOf(done)
    ensures Counter.SumWhere(counts, done, BucketSel(b)) == 0
  {
    forall j | j in done
      ensures !BucketSel(b)(j)
    {
      assert Bucket(j) in BucketsOf(done);
    }
    Counter.SumWhereNone(counts, done, BucketSel(b));
  }

  /** One more key brings in its own bucket. */
  lemma BucketsOfAdd(done: set<string>, k: string)
    ensures BucketsOf(done + {k}) == BucketsOf(done) + {Bucket(k)}
  {
  }

  /** The per-bucket totals of printCounterSummary: one entry per bucket that some key falls in, holding the sum of its keys' counts. */
  method Summary(counts: map<string, int>) returns (totals: map<string, int>)
    ensures totals.Keys == BucketsOf(counts.Keys)
    ensures forall b :: b in totals ==> totals[b] == Counter.SumWhere(counts, counts.Keys, BucketSel(b))
  {
    totals := map[];
    var rest, done := counts.Keys, {};
    while rest != {}
      invariant done + rest == counts.Keys && done !! rest
      invariant Totaled(counts, done, totals)
      decreases rest
    {
      var k :| k in rest;
      TotaledAdd(counts, done, totals, k);
      totals, rest, done := totals[Bucket(k) := Counter.CountOf(totals, Bucket(k)) + counts[k]], rest - {k}, done + {k};
    }
  }

  /** The (bucket, total) pairs of a summary map, each bucket once, in no particular order. */
  method Entries(totals: map<string, int>) returns (s: seq<(string, int)>)
    ensures |s| == |totals|
    ensures forall i :: 0 <= i < |s| ==> s[i].0 in totals && s[i].1 == totals[s[i].0]
    ensures forall b :: b in totals ==> (b, totals[b]) in s
    ensures forall i, j :: 0 <= i < j < |s| ==> s[i].0 != s[j].0
  {
    s := [];
    var rest := totals.Keys;
    while rest != {}
      invariant rest <= totals.Keys
      invariant |s| + |rest| == |totals|
      invariant forall i :: 0 <= i < |s| ==> s[i].0 in totals - rest && s[i].1 == totals[s[i].0]
      invariant forall b :: b in totals && b !in rest ==> (b, totals[b]) in s
      invariant forall i, j :: 0 <= i < j < |s| ==> s[i].0 != s[j].0
      decreases rest
    {
      var b :| b in rest;
      s := s + [(b, totals[b])];
      rest := rest - {b};
    }
  }

  /** Summary entries by descending count. */
  predicate Descending(s: seq<(string, int)>) {
    forall i, j :: 0 <= i < j < |s| ==> s[i].1 >= s[j].1
  }

  /** sort.Slice by descending count: the entries are reordered in place. */
  method SortDescending(a: array<(string, int)>)
    modifies a
    ensures Descending(a[..])
    ensures multiset(a[..]) == multiset(old(a[..]))
  {
    for i := 0 to a.Length
      invariant forall x, y :: 0 <= x < y < i ==> a[x].1 >= a[y].1
      invariant multiset(a[..]) == multiset(old(a[..]))
    {
      InsertDescending(a, i);
    }
  }

  /** One insertion step: the entry at i moves down past the smaller counts before it. */
  method InsertDescending(a: array<(string, int)>, i: nat)
    requires i < a.Length
    requires forall x, y :: 0 <= x < y < i ==> a[x].1 >= a[y].1
    modifies a
    ensures forall x, y :: 0 <= x < y <= i ==> a[x].1 >= a[y].1
    ensures multiset(a[..]) == multiset(old(a[..]))
  {
    var j := i;
    while j > 0 && a[j - 1].1 < a[j].1
      invariant 0 <= j <= i
      invariant forall x, y :: 0 <= x < y <= i && y != j ==> a[x].1 >= a[y].1
      invariant multiset(a[..]) == multiset(old(a[..]))
      decreases j
    {
      a[j - 1], a[j] := a[j], a[j - 1];
      j := j - 1;
    }
  }

  /** A sequence whose keys are distinct holds no pair twice. */
  lemma {:induction false} DistinctKeysOnce(e: seq<(string, int)>, x: (string, int))
    requires forall i, j :: 0 <= i < j < |e| ==> e[i].0 != e[j].0
    ensures multiset(e)[x] <= 1
  {
    if e != [] {
      assert e == [e[0]] + e[1..];
      DistinctKeysOnce(e[1..], x);
      if e[0] == x {
        assert x !in e[1..] by {
          forall k | 0 <= k < |e[1..]| ensures e[1..][k] != x { assert e[1..][k] == e[k + 1]; }
        }
      }
    }
  }

  /** A pair held at most once cannot sit at two positions. */
  lemma OnceAtOnePlace(s: seq<(string, int)>, i: nat, j: nat)
    requires i < j < |s| && multiset(s)[s[i]] <= 1
    ensures s[i] != s[j]
  {
    assert s == s[..j] + s[j..];
    assert s[i] in s[..j] && s[j] == s[j..][0];
    assert multiset(s) == multiset(s[..j]) + multiset(s[j..]);
  }

  /** Any reordering of a map's entries, each key once, is again its entries, each key once. */
  lemma PermutedEntries(totals: map<string, int>, e: seq<(string, int)>, s: seq<(string, int)>)
    requires multiset(s) == multiset(e)
    requires forall i :: 0 <= i < |e| ==> e[i].0 in totals && e[i].1 == totals[e[i].0]
    requires forall b :: b in totals ==> (b, totals[b]) in e
    requires forall i, j :: 0 <= i < j < |e| ==> e[i].0 != e[j].0
    ensures forall i :: 0 <= i < |s| ==> s[i].0 in totals && s[i].1 == totals[s[i].0]
    ensures forall b :: b in totals ==> (b, totals[b]) in s
    ensures forall i, j :: 0 <= i < j < |s| ==> s[i].0 != s[j].0
  {
    forall i | 0 <= i < |s|
      ensures s[i].0 in totals && s[i].1 == totals[s[i].0]
    {
      assert s[i] in multiset(e);
    }
    forall b | b in totals
      ensures (b, totals[b]) in s
    {
      assert (b, totals[b]) in multiset(e);
    }
    forall i, j | 0 <= i < j < |s|
      ensures s[i].0 != s[j].0
    {
      DistinctKeysOnce(e, s[i]);
      OnceAtOnePlace(s, i, j);
    }
  }

  /** The bucket totals, listed in any order, each bucket once. */
  lemma SummaryListing(counts: map<string, int>, totals: map<string, int>, e: seq<(string, int)>, s: seq<(string, int)>)
    requires totals.Keys == BucketsOf(counts.Keys)
    requires forall b :: b in totals ==> totals[b] == Counter.SumWhere(counts, counts.Keys, BucketSel(b))
    requires multiset(s) == multiset(e)
    requires forall i :: 0 <= i < |e| ==> e[i].0 in totals && e[i].1 == totals[e[i].0]
    requires forall b :: b in totals ==> (b, totals[b]) in e
    requires forall i, j :: 0 <= i < j < |e| ==> e[i].0 != e[j].0
    ensures forall i :: 0 <= i < |s| ==> s[i].0 in BucketsOf(counts.Keys) && s[i].1 == Counter.SumWhere(counts, counts.Keys, BucketSel(s[i].0))
    ensures forall k :: k in counts ==> (Bucket(k), Counter.SumWhere(counts, counts.Keys, BucketSel(Bucket(k)))) in s
    ensures forall i, j :: 0 <= i < j < |s| ==> s[i].0 != s[j].0
  {
    PermutedEntries(totals, e, s);
    forall k | k in counts
      ensures (Bucket(k), Counter.SumWhere(counts, counts.Keys, BucketSel(Bucket(k)))) in s
    {
      assert Bucket(k) in BucketsOf(counts.Keys);
    }
  }

  /**
   * printCounterSummary without the printing: the bucket totals of the
   * counts, largest first, each bucket once with the sum of its keys.
   */
  method CounterSummary(counts: map<string, int>) returns (s: seq<(string, int)>)
    ensures Descending(s)
    ensures forall i :: 0 <= i < |s| ==> s[i].0 in BucketsOf(counts.Keys) && s[i].1 == Counter.SumWhere(counts, counts.Keys, BucketSel(s[i].0))
    ensures forall k :: k in counts ==> (Bucket(k), Counter.SumWhere(counts, counts.Keys, BucketSel(Bucket(k)))) in s
    ensures forall i, j :: 0 <= i < j < |s| ==> s[i].0 != s[j].0
  {
    var totals := Summary(counts);
    var e := Entries(totals);
    var a := new (string, int)[|e|](i requires 0 <= i < |e| => e[i]);
    assert a[..] == e;
    SortDescending(a);
    s := a[..];
    SummaryListing(counts, totals, e, s);
  }

  // ---------------------------------------------------------------------------
  // The score
  // ---------------------------------------------------------------------------

  /** Go's integer division, which truncates toward zero. */
  function GoDiv(x: int, d: nat): (q: int)
    requires d > 0
    ensures x >= 0 ==> 0 <= x - q * d < d
    ensures x < 0 ==> -(d as int) < x - q * d <= 0
  {
    if x >= 0 then x / d else -((-x) / d)
  }

  /** The score of a run from its counts. */
  ghost function ScoreOf(m: map<string, int>): (score: int)
    ensures m == map[] ==> score == 0
  {
    var getCount := Counter.SumPrefixOf(m, "GET|/");
    var fetchCount := Counter.SumPrefixOf(m, "GET|/fetch");
    var postCount := Counter.SumPrefixOf(m, "POST|/");
    var msgCount := Counter.SumPrefixOf(m, "get-message-count");
    var s304Count := Counter.CountOf(m, "staticfile-304");
    (getCount - fetchCount - s304Count) + 3 * postCount + msgCount + GoDiv(s304Count, 100)
  }

  /** The score computed from the counter. */
  method Score(c: Counter.Counter) returns (score: int)
    ensures score == ScoreOf(c.cntMap)
  {
    var getCount := c.SumPrefix("GET|/");
    var fetchCount := c.SumPrefix("GET|/fetch");
    var postCount := c.SumPrefix("POST|/");
    var msgCount := c.SumPrefix("get-message-count");
    var s304Count := c.GetKey("staticfile-304");
    score := 1 * (getCount - fetchCount - s304Count) + 3 * postCount + 1 * msgCount + GoDiv(s304Count, 100);
  }

  /** What one more request under key k is worth. */
  function KeyWeight(k: string): int {
    (if HasPrefix(k, "GET|/") && !HasPrefix(k, "GET|/fetch") then 1 else 0)
    + (if HasPrefix(k, "POST|/") then 3 else 0)
    + (if HasPrefix(k, "get-message-count") then 1 else 0)
  }

  /**
   * Counting one more request changes the score by its key's weight: a GET
   * other than /fetch is worth 1, a /fetch nothing, a POST 3, a message
   * count 1, anything else nothing.
   */
  lemma ScoreAfterInc(m: map<string, int>, k: string)
    requires k != "staticfile-304"
    ensures ScoreOf(m[k := Counter.CountOf(m, k) + 1]) == ScoreOf(m) + KeyWeight(k)
    ensures HasPrefix(k, "GET|/fetch") ==> ScoreOf(m[k := Counter.CountOf(m, k) + 1]) == ScoreOf(m)
    ensures HasPrefix(k, "POST|/") ==> ScoreOf(m[k := Counter.CountOf(m, k) + 1]) == ScoreOf(m) + 3
  {
    var m' := m[k := Counter.CountOf(m, k) + 1];
    Counter.SumPrefixAfterAdd(m, k, 1, "GET|/");
    Counter.SumPrefixAfterAdd(m, k, 1, "GET|/fetch");
    Counter.SumPrefixAfterAdd(m, k, 1, "POST|/");
    Counter.SumPrefixAfterAdd(m, k, 1, "get-message-count");
    assert Counter.CountOf(m', "staticfile-304") == Counter.CountOf(m, "staticfile-304");
    var get, fetch, post := HasPrefix(k, "GET|/"), HasPrefix(k, "GET|/fetch"), HasPrefix(k, "POST|/");
    assert fetch ==> get by {
      if fetch {
        assert k[..5] == "GET|/fetch"[..5] == "GET|/";
      }
    }
    assert post ==> !get && !fetch && !HasPrefix(k, "get-message-count") by {
      if post {
        assert k[0] == 'P';
        NotPrefixAt(k, "GET|/", 0);
        NotPrefixAt(k, "GET|/fetch", 0);
        NotPrefixAt(k, "get-message-count", 0);
      }
    }
  }
}
