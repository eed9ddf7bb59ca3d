/** The chat rate limiter: a pruned per-player buffer of admission times, against the full history. */
module ChatFiltering {
  import opened Clocks

  const WINDOW := 6 * TICKS
  const LIMIT := 5

  /** The test of the pruning lambda. */
  predicate Expired(now: int, ts: int) {
    WholeSeconds(now - ts) > 5
  }

  /** "More than five whole seconds" starts at six, not at five as the comment beside the code says. */
  lemma ExpiredMeansSixSeconds(now: int, ts: int)
    ensures Expired(now, ts) <==> now - ts >= 6_000_000_000
  {
    var x := now - ts;
    assert x >= 0 ==> x == TICKS * (x / TICKS) + x % TICKS;
  }

  /** The timestamps that survive pruning at `now`. */
  function Fresh(ts: seq<int>, now: int): seq<int> {
    if ts == [] then []
    else if Expired(now, ts[|ts| - 1]) then Fresh(ts[..|ts| - 1], now)
    else Fresh(ts[..|ts| - 1], now) + [ts[|ts| - 1]]
  }

  // ----- The history and the verdict it determines -----

  /** A call that was not rejected by the rate limit. */
  datatype Message = Message(player: string, at: int)

  /** When the messages of one player were admitted. */
  function AdmittedOf(history: seq<Message>, player: string): seq<int> {
    if history == [] then []
    else
      var earlier := AdmittedOf(history[..|history| - 1], player);
      if history[|history| - 1].player == player then earlier + [history[|history| - 1].at] else earlier
  }

  /** How many of the player's admitted messages are younger than the window. */
  function CountRecent(history: seq<Message>, player: string, now: int): nat {
    if history == [] then 0
    else
      var last := history[|history| - 1];
      CountRecent(history[..|history| - 1], player, now)
      + (if last.player == player && now - last.at < WINDOW then 1 else 0)
  }

  /** The messages that count. */
  function Recent(history: seq<Message>, player: string, now: int): set<nat> {
    set i: nat | i < |history| && history[i].player == player && now - history[i].at < 6_000_000_000
  }

  lemma {:induction false} CountRecentIs(history: seq<Message>, player: string, now: int)
    ensures CountRecent(history, player, now) == |Recent(history, player, now)|
    decreases |history|
  {
    if history != [] {
      var n := |history| - 1;
      CountRecentIs(history[..n], player, now);
      var counts := history[n].player == player && now - history[n].at < 6_000_000_000;
      assert Recent(history, player, now) == Recent(history[..n], player, now) + (if counts then {n} else {});
    }
  }

  predicate Limited(history: seq<Message>, player: string, now: int) {
    CountRecent(history, player, now) >= LIMIT
  }

  function Admit(history: seq<Message>, player: string, now: int): seq<Message> {
    if Limited(history, player, now) then history else history + [Message(player, now)]
  }

  predicate Sorted(ts: seq<int>) {
    forall i, j :: 0 <= i < j < |ts| ==> ts[i] <= ts[j]
  }

  lemma AdmittedSnoc(history: seq<Message>, player: string, m: Message)
    ensures AdmittedOf(history + [m], player)
            == if m.player == player then AdmittedOf(history, player) + [m.at] else AdmittedOf(history, player)
  {
    assert (history + [m])[..|history|] == history;
  }

  lemma FreshSnoc(ts: seq<int>, x: int, now: int)
    ensures Fresh(ts + [x], now) == if Expired(now, x) then Fresh(ts, now) else Fresh(ts, now) + [x]
  {
    assert (ts + [x])[..|ts|] == ts;
  }

  lemma {:induction false} FreshCountsRecent(history: seq<Message>, player: string, now: int)
    ensures |Fresh(AdmittedOf(history, player), now)| == CountRecent(history, player, now)
    decreases |history|
  {
    if history != [] {
      var front, last := history[..|history| - 1], history[|history| - 1];
      FreshCountsRecent(front, player, now);
      if last.player == player {
        ExpiredMeansSixSeconds(now, last.at);
        FreshSnoc(AdmittedOf(front, player), last.at, now);
      }
    }
  }

  /** Pruning forgets nothing a later pruning would need. */
  lemma {:induction false} FreshTwice(ts: seq<int>, earlier: int, now: int)
    requires earlier <= now
    ensures Fresh(Fresh(ts, earlier), now) == Fresh(ts, now)
    decreases |ts|
  {
    if ts != [] {
      var front, last := ts[..|ts| - 1], ts[|ts| - 1];
      FreshTwice(front, earlier, now);
      ExpiredMeansSixSeconds(earlier, last);
      ExpiredMeansSixSeconds(now, last);
      FreshSnoc(Fresh(front, earlier), last, now);
    }
  }

  lemma {:induction false} FreshSorted(ts: seq<int>, now: int)
    requires Sorted(ts)
    ensures Sorted(Fresh(ts, now))
    ensures forall i :: 0 <= i < |Fresh(ts, now)| ==> Fresh(ts, now)[i] <= ts[|ts| - 1]
    decreases |ts|
  {
    if ts != [] {
      var front := ts[..|ts| - 1];
      FreshSorted(front, now);
      assert front != [] ==> front[|front| - 1] <= ts[|ts| - 1];
    }
  }

  lemma {:induction false} FreshShrinks(ts: seq<int>, now: int)
    ensures |Fresh(ts, now)| <= |ts|
    decreases |ts|
  {
    if ts != [] {
      FreshShrinks(ts[..|ts| - 1], now);
    }
  }

  /** Any six successive admissions of one player span at least the window. */
  predicate Spaced(ts: seq<int>) {
    forall i :: 0 <= i < |ts| - LIMIT ==> ts[i + LIMIT] - ts[i] >= WINDOW
  }

  predicate Good(ts: seq<int>, now: int) {
    Sorted(ts) && Spaced(ts) && forall i :: 0 <= i < |ts| ==> ts[i] <= now
  }

  ghost predicate RunInv(history: seq<Message>, now: int) {
    forall p :: Good(AdmittedOf(history, p), now)
  }

  lemma {:induction false} ManyFresh(ts: seq<int>, now: int, n: nat)
    requires Sorted(ts) && n <= |ts| && (n > 0 ==> now - ts[|ts| - n] < WINDOW)
    ensures |Fresh(ts, now)| >= n
    decreases |ts|
  {
    if n > 0 {
      var front := ts[..|ts| - 1];
      if n > 1 {
        assert front[|front| - (n - 1)] == ts[|ts| - n];
      }
      ManyFresh(front, now, n - 1);
      ExpiredMeansSixSeconds(now, ts[|ts| - 1]);
    }
  }

  lemma GoodSnoc(ts: seq<int>, from: int, now: int)
    requires Good(ts, from) && from <= now && |Fresh(ts, now)| < LIMIT
    ensures Good(ts + [now], now)
  {
    if |ts| >= LIMIT && now - ts[|ts| - LIMIT] < WINDOW {
      ManyFresh(ts, now, LIMIT);
    }
    var more := ts + [now];
    forall i | 0 <= i < |more| - LIMIT ensures more[i + LIMIT] - more[i] >= WINDOW {
      assert more[i] == ts[i];
      if i + LIMIT < |ts| {
        assert more[i + LIMIT] == ts[i + LIMIT];
      }
    }
    forall i, j | 0 <= i < j < |more| ensures more[i] <= more[j] {
      assert more[i] == ts[i];
    }
  }

  lemma AdmitKeepsRunInv(history: seq<Message>, from: int, player: string, now: int)
    requires RunInv(history, from) && from <= now
    ensures RunInv(Admit(history, player, now), now)
  {
    forall p ensures Good(AdmittedOf(Admit(history, player, now), p), now) {
      assert Good(AdmittedOf(history, p), from);
      AdmittedSnoc(history, p, Message(player, now));
      FreshCountsRecent(history, p, now);
      if p == player && !Limited(history, player, now) {
        GoodSnoc(AdmittedOf(history, p), from, now);
      }
    }
  }

  /** The buffer of player p is what its last pruning, at pruned[p], left of the player's full record. */
  ghost predicate BufferInv(buffers: map<string, seq<int>>, pruned: map<string, int>, history: seq<Message>, now: int, p: string) {
    if p in buffers && p in pruned then
      pruned[p] <= now && buffers[p] == Fresh(AdmittedOf(history, p), pruned[p]) && |buffers[p]| <= LIMIT
    else
      p !in buffers && p !in pruned && AdmittedOf(history, p) == []
  }

  /** The buffer after pruning and, if there is room, recording the call. */
  function NextBuffer(buffer: seq<int>, now: int): seq<int> {
    var kept := Fresh(buffer, now);
    if |kept| >= LIMIT then kept else kept + [now]
  }

  /** A pruned buffer, pruned again, is the player's full record pruned once. */
  lemma BufferIsFresh(
    buffers: map<string, seq<int>>, pruned: map<string, int>, history: seq<Message>, last: int, player: string, now: int)
    requires last <= now && BufferInv(buffers, pruned, history, last, player)
    ensures Fresh(if player in buffers then buffers[player] else [], now) == Fresh(AdmittedOf(history, player), now)
    ensures |Fresh(if player in buffers then buffers[player] else [], now)| <= 5
  {
    if player in buffers {
      FreshTwice(AdmittedOf(history, player), pruned[player], now);
      FreshShrinks(buffers[player], now);
    }
  }

  lemma CallRefines(
    buffers: map<string, seq<int>>, pruned: map<string, int>, history: seq<Message>, last: int, player: string, now: int)
    requires last <= now && BufferInv(buffers, pruned, history, last, player)
    ensures var buffer := if player in buffers then buffers[player] else [];
            && (|Fresh(buffer, now)| >= LIMIT <==> Limited(history, player, now))
            && NextBuffer(buffer, now) == Fresh(AdmittedOf(Admit(history, player, now), player), now)
            && |NextBuffer(buffer, now)| <= LIMIT
  {
    var admitted := AdmittedOf(history, player);
    BufferIsFresh(buffers, pruned, history, last, player, now);
    FreshCountsRecent(history, player, now);
    AdmittedSnoc(history, player, Message(player, now));
    FreshSnoc(admitted, now, now);
    ExpiredMeansSixSeconds(now, now);
  }

  ghost predicate Refines(buffers: map<string, seq<int>>, pruned: map<string, int>, history: seq<Message>, now: int) {
    forall p :: BufferInv(buffers, pruned, history, now, p)
  }

  lemma CallKeepsBuffers(
    buffers: map<string, seq<int>>, pruned: map<string, int>, history: seq<Message>, last: int, player: string, now: int)
    requires last <= now && Refines(buffers, pruned, history, last)
    ensures var buffer := if player in buffers then buffers[player] else [];
            Refines(buffers[player := NextBuffer(buffer, now)], pruned[player := now], Admit(history, player, now), now)
  {
    var buffer := if player in buffers then buffers[player] else [];
    var buffers', pruned' := buffers[player := NextBuffer(buffer, now)], pruned[player := now];
    forall p ensures BufferInv(buffers', pruned', Admit(history, player, now), now, p) {
      assert BufferInv(buffers, pruned, history, last, p);
      if p == player {
        CallRefines(buffers, pruned, history, last, player, now);
      } else {
        AdmittedSnoc(history, p, Message(player, now));
      }
    }
  }

  /** Everything one call preserves and decides, on values. */
  lemma CallStep(
    buffers: map<string, seq<int>>, pruned: map<string, int>, history: seq<Message>, last: int, player: string, now: int)
    requires last <= now && Refines(buffers, pruned, history, last) && RunInv(history, last)
    ensures var buffer := if player in buffers then buffers[player] else [];
            var next := NextBuffer(buffer, now);
            && Refines(buffers[player := next], pruned[player := now], Admit(history, player, now), now)
            && RunInv(Admit(history, player, now), now)
            && (|Fresh(buffer, now)| >= LIMIT <==> Limited(history, player, now))
            && next == Fresh(AdmittedOf(Admit(history, player, now), player), now)
            && |next| <= LIMIT && Sorted(next)
  {
    assert BufferInv(buffers, pruned, history, last, player);
    CallRefines(buffers, pruned, history, last, player, now);
    CallKeepsBuffers(buffers, pruned, history, last, player, now);
    AdmitKeepsRunInv(history, last, player, now);
    assert Good(AdmittedOf(Admit(history, player, now), player), now);
    FreshSorted(AdmittedOf(Admit(history, player, now), player), now);
  }

  class ChatFilter {
    var playerMessages: map<string, seq<int>>
    var spamPatterns: seq<string>
    var history: seq<Message>
    ghost var lastCall: int
    ghost var prunedAt: map<string, int>

    /** The buffers refine the history. */
    ghost predicate Valid()
      reads this
    {
      Refines(playerMessages, prunedAt, history, lastCall) && RunInv(history, lastCall)
    }

    constructor (start: int)
      ensures Valid() && lastCall == start && history == [] && spamPatterns == []
    {
      playerMessages, spamPatterns, history, lastCall, prunedAt := map[], [], [], start, map[];
    }

    method AddSpamPattern(pattern: string)
      requires Valid()
      modifies this`spamPatterns
      ensures Valid() && spamPatterns == old(spamPatterns) + [pattern]
    {
      spamPatterns := spamPatterns + [pattern];
    }

    /** The remove-and-erase pass over one buffer. */
    static method Prune(ts: seq<int>, now: int) returns (kept: seq<int>)
      ensures kept == Fresh(ts, now)
    {
      kept := [];
      for i := 0 to |ts|
        invariant kept == Fresh(ts[..i], now)
      {
        assert ts[..i + 1][..i] == ts[..i];
        if !Expired(now, ts[i]) {
          kept := kept + [ts[i]];
        }
      }
      assert ts[..|ts|] == ts;
    }

    /** Whether some spam pattern matches; regular expressions are an uninterpreted relation. */
    method MatchesSpam(message: string, matches: (string, string) -> bool) returns (found: bool)
      ensures found <==> exists i :: 0 <= i < |spamPatterns| && matches(message, spamPatterns[i])
    {
      for i := 0 to |spamPatterns|
        invariant forall j :: 0 <= j < i ==> !matches(message, spamPatterns[j])
      {
        if matches(message, spamPatterns[i]) {
          return true;
        }
      }
      return false;
    }

    /** The rate limit of `IsSpam`: prune, then reject or record. */
    method RateLimit(playerId: string, now: int) returns (limited: bool)
      requires Valid() && lastCall <= now
      modifies `playerMessages, `history, `lastCall, `prunedAt
      ensures Valid() && lastCall == now
      ensures limited <==> |Recent(old(history), playerId, now)| >= 5
      ensures history == if limited then old(history) else old(history) + [Message(playerId, now)]
      ensures playerMessages == old(playerMessages)[playerId := Fresh(AdmittedOf(history, playerId), now)]
      ensures |playerMessages[playerId]| <= 5 && Sorted(playerMessages[playerId])
    {
      var timestamps := if playerId in playerMessages then playerMessages[playerId] else [];
      CallStep(playerMessages, prunedAt, history, lastCall, playerId, now);
      CountRecentIs(history, playerId, now);
      timestamps := Prune(timestamps, now);
      limited := |timestamps| >= LIMIT;
      if !limited {
        timestamps := timestamps + [now];
        history := history + [Message(playerId, now)];
      }
      playerMessages := playerMessages[playerId := timestamps];
      lastCall, prunedAt := now, prunedAt[playerId := now];
    }

    /** The verdict depends only on the player's own admitted messages younger than six seconds and on
        the patterns; a message that only matches a pattern is admitted all the same. */
    method IsSpam(message: string, playerId: string, now: int, matches: (string, string) -> bool) returns (spam: bool)
      requires Valid() && lastCall <= now
      modifies `playerMessages, `history, `lastCall, `prunedAt
      ensures Valid() && lastCall == now
      ensures spam <==> |Recent(old(history), playerId, now)| >= 5
                        || exists i :: 0 <= i < |spamPatterns| && matches(message, spamPatterns[i])
      ensures history == if |Recent(old(history), playerId, now)| >= 5 then old(history)
                         else old(history) + [Message(playerId, now)]
      ensures playerMessages == old(playerMessages)[playerId := Fresh(AdmittedOf(history, playerId), now)]
    {
      var limited := RateLimit(playerId, now);
      if limited {
        return true;
      }
      spam := MatchesSpam(message, matches);
    }
  }

  // ----- Whole runs -----

  datatype Call = Call(player: string, at: int)

  function Replay(history: seq<Message>, calls: seq<Call>): seq<Message>
    decreases |calls|
  {
    if calls == [] then history else Replay(Admit(history, calls[0].player, calls[0].at), calls[1..])
  }

  predicate Monotone(from: int, calls: seq<Call>)
    decreases |calls|
  {
    calls == [] || (from <= calls[0].at && Monotone(calls[0].at, calls[1..]))
  }

  lemma {:induction false} ReplayKeepsRunInv(history: seq<Message>, from: int, calls: seq<Call>) returns (now: int)
    requires RunInv(history, from) && Monotone(from, calls)
    ensures RunInv(Replay(history, calls), now)
    decreases |calls|
  {
    if calls == [] {
      now := from;
    } else {
      AdmitKeepsRunInv(history, from, calls[0].player, calls[0].at);
      now := ReplayKeepsRunInv(Admit(history, calls[0].player, calls[0].at), calls[0].at, calls[1..]);
    }
  }

  /** Under a monotone clock no run admits six messages of one player within less than six seconds. */
  lemma SixAdmissionsSpanTheWindow(start: int, calls: seq<Call>, player: string, i: nat)
    requires Monotone(start, calls)
    ensures var ts := AdmittedOf(Replay([], calls), player);
            Sorted(ts) && (i + 5 < |ts| ==> ts[i + 5] - ts[i] >= 6_000_000_000)
  {
    var now := ReplayKeepsRunInv([], start, calls);
    assert Good(AdmittedOf(Replay([], calls), player), now);
  }

  function Burst(player: string, now: int, n: nat): seq<Message> {
    seq(n, i => Message(player, now))
  }

  lemma {:induction false} CountBurst(player: string, now: int, n: nat)
    ensures CountRecent(Burst(player, now, n), player, now) == n
  {
    if n > 0 {
      assert Burst(player, now, n)[..n - 1] == Burst(player, now, n - 1);
      CountBurst(player, now, n - 1);
    }
  }

  lemma AdmitBurst(player: string, now: int, n: nat)
    ensures Admit(Burst(player, now, n), player, now) == Burst(player, now, if n >= 5 then n else n + 1)
  {
    CountBurst(player, now, n);
    assert Burst(player, now, n + 1) == Burst(player, now, n) + [Message(player, now)];
  }

  /** Of any number of messages at one instant the first five are admitted. */
  lemma {:induction false} FiveOfABurst(player: string, now: int, n: nat, calls: seq<Call>)
    requires n <= 5 && forall i :: 0 <= i < |calls| ==> calls[i] == Call(player, now)
    ensures Replay(Burst(player, now, n), calls) == Burst(player, now, if n + |calls| <= 5 then n + |calls| else 5)
    decreases |calls|
  {
    if calls != [] {
      AdmitBurst(player, now, n);
      FiveOfABurst(player, now, if n >= 5 then n else n + 1, calls[1..]);
    }
  }

  /** The rate-limit verdicts that the calls of one player receive. */
  function Verdicts(history: seq<Message>, calls: seq<Call>, player: string): seq<bool>
    decreases |calls|
  {
    if calls == [] then []
    else
      var later := Verdicts(Admit(history, calls[0].player, calls[0].at), calls[1..], player);
      if calls[0].player == player then [Limited(history, player, calls[0].at)] + later else later
  }

  function CallsOf(calls: seq<Call>, player: string): seq<Call> {
    if calls == [] then []
    else if calls[0].player == player then [calls[0]] + CallsOf(calls[1..], player)
    else CallsOf(calls[1..], player)
  }

  lemma LimitedDependsOnOwn(h: seq<Message>, h': seq<Message>, player: string, now: int)
    requires AdmittedOf(h, player) == AdmittedOf(h', player)
    ensures Limited(h, player, now) == Limited(h', player, now)
  {
    FreshCountsRecent(h, player, now);
    FreshCountsRecent(h', player, now);
  }

  lemma {:induction false} VerdictsAgree(h: seq<Message>, h': seq<Message>, calls: seq<Call>, player: string)
    requires AdmittedOf(h, player) == AdmittedOf(h', player)
    ensures Verdicts(h, calls, player) == Verdicts(h', CallsOf(calls, player), player)
    decreases |calls|
  {
    if calls != [] {
      var c := calls[0];
      var next := Admit(h, c.player, c.at);
      AdmittedSnoc(h, player, Message(c.player, c.at));
      if c.player == player {
        LimitedDependsOnOwn(h, h', player, c.at);
        AdmittedSnoc(h', player, Message(player, c.at));
        var own := CallsOf(calls, player);
        assert own[0] == c && own[1..] == CallsOf(calls[1..], player);
        VerdictsAgree(next, Admit(h', player, c.at), calls[1..], player);
      } else {
        VerdictsAgree(next, h', calls[1..], player);
      }
    }
  }

  /** Other players cannot influence a player's verdicts, whatever the interleaving. */
  lemma OthersDoNotMatter(calls: seq<Call>, player: string)
    ensures Verdicts([], calls, player) == Verdicts([], CallsOf(calls, player), player)
  {
    VerdictsAgree([], [], calls, player);
  }
}
